/** generateHTMLReport: the findings sorted critical first, then written out as one HTML page. */
module HtmlReport {
  import opened Strings
  import opened Doctor

  /** No finding that is not critical comes before a critical one: what sort.Slice guarantees for the
      comparator "i is critical and j is not". */
  predicate CriticalFirst(s: seq<Diagnosis>) {
    forall i, j :: 0 <= i < j < |s| && IsCritical(s[j]) ==> IsCritical(s[i])
  }

  /** The sort, as an in-place partition: criticals are swapped to the front in one pass. The order within
      each of the two groups is not specified, as sort.Slice does not specify it either. */
  method SortBySeverity(a: array<Diagnosis>)
    modifies a
    ensures CriticalFirst(a[..])
    ensures multiset(a[..]) == multiset(old(a[..]))
  {
    var i := 0;
    for j := 0 to a.Length
      invariant 0 <= i <= j
      invariant forall k :: 0 <= k < i ==> IsCritical(a[k])
      invariant forall k :: i <= k < j ==> !IsCritical(a[k])
      invariant multiset(a[..]) == multiset(old(a[..]))
    {
      if IsCritical(a[j]) {
        a[i], a[j] := a[j], a[i];
        i := i + 1;
      }
    }
  }

  /** The first k findings are critical and the others are not. */
  predicate SplitAt(s: seq<Diagnosis>, k: int) {
    0 <= k <= |s| && (forall i :: 0 <= i < k ==> IsCritical(s[i])) && (forall i :: k <= i < |s| ==> !IsCritical(s[i]))
  }

  /** A list in that order is its critical findings followed by the others. */
  lemma CriticalFirstSplit(s: seq<Diagnosis>)
    requires CriticalFirst(s)
    ensures exists k :: SplitAt(s, k)
  {
    var k := 0;
    while k < |s| && IsCritical(s[k])
      invariant 0 <= k <= |s|
      invariant forall i :: 0 <= i < k ==> IsCritical(s[i])
    {
      k := k + 1;
    }
    if k < |s| {
      assert !IsCritical(s[k]);
    }
    assert SplitAt(s, k);
  }

  /** The fixed text before the count. */
  const Head: string :=
    "<html>\n<head>\n<title>Go Health Report</title>\n</head>\n<body>\n<h1>Go Health Inspector Report</h1>\n<p>Found "
  const CountTail: string := " issues.</p>\n"
  const Footer: string := "</body>\n</html>\n"
  const CodeLabel: string := "<p><strong>Code:</strong> "
  const WhyLabel: string := "<p><strong>Why this matters:</strong></p>\n"
  const SuggestionLabel: string := "<p><strong>Suggestion:</strong></p>\n"
  const LocationLabel: string := "<p><strong>Location:</strong> "
  const HeadingOpen: string := "<h2>"
  const HeadingClose: string := "</h2>\n"
  const ParaOpen: string := "<p>"
  const ParaClose: string := "</p>\n"
  const Padding: string := "<p></p>\n"
  const Break: string := "<br>"

  /** The page header: the title, then the number of findings. */
  function Header(count: int): string {
    Head + IntToString(count) + CountTail
  }

  /** A text as a paragraph, its line breaks turned into <br>. */
  function Paragraph(text: string): string {
    ParaOpen + ReplaceAll(text, '\n', Break) + ParaClose
  }

  /** The location line of a finding. */
  function Location(d: Diagnosis): string {
    LocationLabel + d.file + ":" + IntToString(d.line) + ParaClose
  }

  /** The section heading: severity and message. */
  function Heading(d: Diagnosis): string {
    HeadingOpen + SeverityText(d.severity) + ": " + d.message + HeadingClose
  }

  /** The Code paragraph, present only for a non-empty snippet. */
  function CodePart(d: Diagnosis): string {
    if d.codeSnippet != "" then CodeLabel + d.codeSnippet + ParaClose else ""
  }

  /** The Suggestion paragraphs, present only for a non-empty suggestion. */
  function SuggestionPart(d: Diagnosis): string {
    if d.suggestion != "" then SuggestionLabel + Paragraph(d.suggestion) else ""
  }

  /** The section of one finding: heading, location, the code when there is some, the rationale,
      the suggestion when there is one, and a padding paragraph. */
  function Entry(d: Diagnosis): string {
    Heading(d) + Location(d) + CodePart(d) + WhyLabel + Paragraph(d.whyItMatters) + SuggestionPart(d) + Padding
  }

  /** The texts of the items, in list order. */
  function Concat<T>(xs: seq<T>, render: T -> string): string
    decreases |xs|
  {
    if xs == [] then "" else Concat(xs[..|xs| - 1], render) + render(xs[|xs| - 1])
  }

  /** The sections of the findings, in list order. */
  function Entries(ds: seq<Diagnosis>): string {
    Concat(ds, Entry)
  }

  /** The whole page. */
  function Page(ds: seq<Diagnosis>): string {
    Header(|ds|) + Entries(ds) + Footer
  }

  /** The body of the source's loop for one finding: the section appended piece by piece. */
  method RenderEntry(d: Diagnosis) returns (entry: string)
    ensures entry == Entry(d)
  {
    entry := HeadingOpen + SeverityText(d.severity) + ": " + d.message + HeadingClose;
    entry := entry + (LocationLabel + d.file + ":" + IntToString(d.line) + ParaClose);
    if d.codeSnippet != "" {
      entry := entry + (CodeLabel + d.codeSnippet + ParaClose);
    } else {
      assert entry + CodePart(d) == entry;
    }
    entry := entry + WhyLabel;
    entry := entry + (ParaOpen + ReplaceAll(d.whyItMatters, '\n', Break) + ParaClose);
    if d.suggestion != "" {
      var before := entry;
      entry := entry + SuggestionLabel;
      entry := entry + (ParaOpen + ReplaceAll(d.suggestion, '\n', Break) + ParaClose);
      assert entry == before + SuggestionPart(d);
    } else {
      assert entry + SuggestionPart(d) == entry;
    }
    entry := entry + Padding;
  }

  /** The loop that builds the page, one finding at a time, as the source appends to `html`. */
  method BuildPage(ds: seq<Diagnosis>) returns (html: string)
    ensures html == Page(ds)
  {
    html := Head + IntToString(|ds|) + CountTail;
    for i := 0 to |ds|
      invariant html == Header(|ds|) + Concat(ds[..i], Entry)
    {
      var entry := RenderEntry(ds[i]);
      ConcatStep(ds, i, Entry);
      AppendAssociative(Header(|ds|), Concat(ds[..i], Entry), entry);
      html := html + entry;
    }
    assert ds[..|ds|] == ds;
    html := html + Footer;
  }

  /** generateHTMLReport without the file write: sort the findings in place, then build the page from them. */
  method GenerateHTMLReport(a: array<Diagnosis>) returns (html: string)
    modifies a
    ensures CriticalFirst(a[..])
    ensures multiset(a[..]) == multiset(old(a[..]))
    ensures html == Page(a[..])
  {
    SortBySeverity(a);
    html := BuildPage(a[..]);
  }

  /** Appending is associative; stated once so that the loop's step need not rediscover it. */
  lemma AppendAssociative(a: string, b: string, c: string)
    ensures (a + b) + c == a + (b + c)
  {
  }

  /** One more item, one more text at the end. */
  lemma ConcatStep<T>(xs: seq<T>, i: int, render: T -> string)
    requires 0 <= i < |xs|
    ensures Concat(xs[..i + 1], render) == Concat(xs[..i], render) + render(xs[i])
  {
    assert xs[..i + 1][..i] == xs[..i];
  }

  /** The texts split as the list does. */
  lemma {:induction false} ConcatAppend<T>(a: seq<T>, b: seq<T>, render: T -> string)
    ensures Concat(a + b, render) == Concat(a, render) + Concat(b, render)
    decreases |b|
  {
    if b == [] {
      assert a + b == a;
    } else {
      var init, last := b[..|b| - 1], b[|b| - 1];
      assert (a + b)[..|a + b| - 1] == a + init;
      assert (a + b)[|a + b| - 1] == last;
      calc {
        Concat(a + b, render);
        Concat(a + init, render) + render(last);
        { ConcatAppend(a, init, render); }
        Concat(a, render) + Concat(init, render) + render(last);
      }
    }
  }

  /** On a sorted list, every critical section comes before every other section. */
  lemma CriticalSectionsFirst(ds: seq<Diagnosis>)
    requires CriticalFirst(ds)
    ensures exists k :: SplitAt(ds, k) && Entries(ds) == Entries(ds[..k]) + Entries(ds[k..])
  {
    CriticalFirstSplit(ds);
    var k :| SplitAt(ds, k);
    assert ds == ds[..k] + ds[k..];
    ConcatAppend(ds[..k], ds[k..], Entry);
  }

  /** The count in the header reads back as the number of findings: it is a run of digits ended by
      " issues.", directly after the fixed head. */
  lemma HeaderCountRoundTrip(ds: seq<Diagnosis>)
    ensures exists count :: Page(ds) == Head + count + CountTail + Entries(ds) + Footer
                             && |count| > 0 && IsDigits(count) && ParseDigits(count) == |ds|
  {
    var count := IntToString(|ds|);
    NatToStringRoundTrip(|ds|);
    assert Page(ds) == Head + count + CountTail + Entries(ds) + Footer;
  }

  lemma EntryHeading(d: Diagnosis)
    ensures HasPrefix(Entry(d), Heading(d))
  {
    var h := Heading(d);
    assert HasPrefix(h, h);
    PrefixExtend(h, Location(d), h);
    PrefixExtend(h + Location(d), CodePart(d), h);
    PrefixExtend(h + Location(d) + CodePart(d), WhyLabel, h);
    PrefixExtend(h + Location(d) + CodePart(d) + WhyLabel, Paragraph(d.whyItMatters), h);
    var explained := h + Location(d) + CodePart(d) + WhyLabel + Paragraph(d.whyItMatters);
    PrefixExtend(explained, SuggestionPart(d), h);
    PrefixExtend(explained + SuggestionPart(d), Padding, h);
  }

  lemma EntrySuggestion(d: Diagnosis)
    ensures d.suggestion != "" ==> Contains(Entry(d), Paragraph(d.suggestion))
  {
    if d.suggestion != "" {
      var explained := Heading(d) + Location(d) + CodePart(d) + WhyLabel + Paragraph(d.whyItMatters);
      ContainsSuffix(SuggestionLabel, Paragraph(d.suggestion));
      ContainsPrepend(explained, SuggestionPart(d), Paragraph(d.suggestion));
      ContainsExtend(explained + SuggestionPart(d), Padding, Paragraph(d.suggestion));
    }
  }

  /** Each section opens with the finding's severity and message as a heading, names its location,
      and holds its rationale, and its suggestion when it has one, as paragraphs without line breaks. */
  lemma EntryShowsFinding(d: Diagnosis)
    ensures HasPrefix(Entry(d), HeadingOpen + SeverityText(d.severity) + ": " + d.message + HeadingClose)
    ensures Contains(Entry(d), Location(d))
    ensures Contains(Entry(d), Paragraph(d.whyItMatters))
    ensures '\n' !in ReplaceAll(d.whyItMatters, '\n', Break)
    ensures d.suggestion != "" ==> Contains(Entry(d), Paragraph(d.suggestion))
    ensures '\n' !in ReplaceAll(d.suggestion, '\n', Break)
  {
    EntryHeading(d);
    EntrySuggestion(d);
    ReplaceAllRemoves(d.suggestion, '\n', Break);
    var located := Heading(d) + Location(d);
    ContainsSuffix(Heading(d), Location(d));
    ContainsExtend(located, CodePart(d), Location(d));
    ContainsExtend(located + CodePart(d), WhyLabel, Location(d));
    var explained := located + CodePart(d) + WhyLabel + Paragraph(d.whyItMatters);
    ContainsExtend(located + CodePart(d) + WhyLabel, Paragraph(d.whyItMatters), Location(d));
    ContainsSuffix(located + CodePart(d) + WhyLabel, Paragraph(d.whyItMatters));
    ContainsExtend(explained, SuggestionPart(d), Location(d));
    ContainsExtend(explained, SuggestionPart(d), Paragraph(d.whyItMatters));
    ContainsExtend(explained + SuggestionPart(d), Padding, Location(d));
    ContainsExtend(explained + SuggestionPart(d), Padding, Paragraph(d.whyItMatters));
    ReplaceAllRemoves(d.whyItMatters, '\n', Break);
  }

  /** The Code and Suggestion paragraphs are there exactly when the finding has a snippet or a suggestion. */
  lemma OptionalParagraphs(d: Diagnosis)
    ensures CodePart(d) == "" <==> d.codeSnippet == ""
    ensures SuggestionPart(d) == "" <==> d.suggestion == ""
    ensures d.codeSnippet != "" ==> HasPrefix(CodePart(d), CodeLabel + d.codeSnippet)
    ensures d.suggestion != "" ==> HasPrefix(SuggestionPart(d), SuggestionLabel + ParaOpen)
  {
    if d.codeSnippet != "" {
      assert CodePart(d)[..|CodeLabel + d.codeSnippet|] == CodeLabel + d.codeSnippet;
    }
    if d.suggestion != "" {
      assert SuggestionPart(d)[..|SuggestionLabel + ParaOpen|] == SuggestionLabel + ParaOpen;
    }
  }

  /** The page opens with the head and the count and closes with the footer. */
  lemma PageFrame(ds: seq<Diagnosis>)
    ensures HasPrefix(Page(ds), Header(|ds|))
    ensures HasSuffix(Page(ds), Footer)
  {
    var h, e := Header(|ds|), Entries(ds);
    assert Page(ds) == (h + e) + Footer;
    assert ((h + e) + Footer)[..|h|] == (h + e)[..|h|] == h;
    assert ((h + e) + Footer)[|h + e|..] == Footer;
  }

  /** An empty run reports "Found 0 issues." and has no sections. */
  lemma EmptyPage()
    ensures Page([]) == Head + "0" + CountTail + Footer
  {
    assert IntToString(0) == "0";
  }
}
