/** The integer samples of the text exposition format as lines of text, with a reader. */
module SampleLines {
  import opened Wrappers
  import opened Text
  import opened Decimals
  import opened LabelText
  import opened MetricsRegistry
  import opened PrometheusHistogram

  function IntText(i: int): string {
    if i < 0 then "-" + Decimal(0 - i) else Decimal(i)
  }

  function ReadInt(s: string): Option<int> {
    if s != "" && s[0] == '-' then
      var r := ReadDecimal(s[1..]);
      if r.None? then None else Some(0 - r.value)
    else
      var r := ReadDecimal(s);
      if r.None? then None else Some(r.value)
  }

  lemma IntRoundTrip(i: int)
    ensures ReadInt(IntText(i)) == Some(i) && ' ' !in IntText(i)
  {
    if i < 0 {
      var digits := Decimal(0 - i);
      DecimalRoundTrip(0 - i);
      assert ("-" + digits)[1..] == digits && ' ' !in digits;
    } else {
      var digits := Decimal(i);
      DecimalRoundTrip(i);
      assert digits[0] in digits && ' ' !in digits;
    }
  }

  function LastIndexOf(s: string, c: char): (i: Option<nat>)
    ensures i.Some? ==> i.value < |s|
  {
    if s == "" then None
    else if s[|s| - 1] == c then Some(|s| - 1)
    else LastIndexOf(s[..|s| - 1], c)
  }

  lemma {:induction false} LastIndex(head: string, c: char, e: string)
    requires c !in e
    ensures LastIndexOf(head + [c] + e, c) == Some(|head|)
  {
    var s := head + [c] + e;
    if e == "" {
      assert s == head + [c];
    } else {
      assert s[|s| - 1] == e[|e| - 1] && e[|e| - 1] in e;
      assert s[..|s| - 1] == head + [c] + e[..|e| - 1];
      LastIndex(head, c, e[..|e| - 1]);
    }
  }

  /** A sample as it is printed. */
  function Line(s: Sample): string {
    s.name + s.labels + " " + IntText(s.value) + "\n"
  }

  datatype Read = Read(name: string, labels: map<string, string>, value: int)

  /** Splits a name and its labels at the opening brace, if there is one. */
  function ReadHead(head: string): Option<(string, map<string, string>)> {
    var brace := IndexOf(head, '{');
    if brace.None? then Some((head, map[]))
    else
      var labels := ReadLabels(head[brace.value..]);
      if labels.None? then None else Some((head[..brace.value], labels.value))
  }

  /** Reads a line: the value comes after its last space. */
  function ReadLine(line: string): Option<Read> {
    if line == "" || line[|line| - 1] != '\n' then None
    else
      var body := line[..|line| - 1];
      var space := LastIndexOf(body, ' ');
      if space.None? then None
      else
        var head, value := ReadHead(body[..space.value]), ReadInt(body[space.value + 1..]);
        if head.None? || value.None? then None else Some(Read(head.value.0, head.value.1, value.value))
  }

  lemma HeadRoundTrip(name: string, text: string, labels: map<string, string>)
    requires '{' !in name && IsLabelText(text, labels) && forall n | n in labels :: LegalName(n)
    ensures ReadHead(name + text) == Some((name, labels))
  {
    if labels == map[] {
      assert name + text == name;
    } else {
      LabelsRoundTrip(text, labels);
      BraceFirst(text, labels);
      SplitAtBrace(name, text);
    }
  }

  lemma SplitAtBrace(name: string, text: string)
    requires '{' !in name && text != "" && text[0] == '{'
    ensures IndexOf(name + text, '{') == Some(|name|)
    ensures (name + text)[..|name|] == name && (name + text)[|name|..] == text
  {
    FirstIndex(name, '{', text[1..]);
    assert name + text == name + ['{'] + text[1..];
  }

  lemma BraceFirst(text: string, labels: map<string, string>)
    requires IsLabelText(text, labels) && labels != map[]
    ensures text != "" && text[0] == '{'
  {
    var names :| ListsNames(names, labels) && text == LabelsInOrder(names, labels);
  }

  lemma ReadBody(head: string, number: string)
    requires ' ' !in number
    ensures var line := head + " " + number + "\n";
      ReadLine(line) == var h, v := ReadHead(head), ReadInt(number);
                        if h.None? || v.None? then None else Some(Read(h.value.0, h.value.1, v.value))
  {
    var line := head + " " + number + "\n";
    var body := line[..|line| - 1];
    assert body == head + [' '] + number;
    LastIndex(head, ' ', number);
    assert body[..|head|] == head && body[|head| + 1..] == number;
  }

  /** A printed sample is read back exactly: its name, its labels and its value. */
  lemma LineRoundTrip(s: Sample, name: string, labels: map<string, string>, value: int)
    requires IsSample(s, name, labels, value) && '{' !in name && forall n | n in labels :: LegalName(n)
    ensures ReadLine(Line(s)) == Some(Read(name, labels, value))
  {
    HeadRoundTrip(name, s.labels, labels);
    IntRoundTrip(value);
    ReadBody(name + s.labels, IntText(value));
  }

  /** The integer lines of a histogram of the log: one for each bound, one for `+Inf`, and the count. */
  ghost function HistogramLine(name: string, labels: map<string, string>, log: seq<Record>,
                               bounds: seq<int>, texts: seq<string>, i: nat): Read
    requires |texts| == |bounds|
  {
    if i < |bounds| then Read(name + "_bucket", labels["le" := texts[i]], Sum(log, AtMost(bounds[i])))
    else if i == |bounds| then Read(name + "_bucket", labels["le" := "+Inf"], |log|)
    else Read(name + "_count", labels, |log|)
  }

  lemma HistogramSample(lines: seq<Sample>, name: string, labels: map<string, string>, log: seq<Record>,
                        bounds: seq<int>, texts: seq<string>, i: nat)
    requires IsHistogramOf(lines, name, labels, log, bounds, texts) && i < |lines| && i != |bounds| + 1
    requires '{' !in name
    ensures var r := HistogramLine(name, labels, log, bounds, texts, i);
      IsSample(lines[i], r.name, r.labels, r.value) && '{' !in r.name
  {
    assert '{' !in "_bucket" && '{' !in "_count";
  }

  lemma LegalWithBound(labels: map<string, string>, text: string)
    requires forall n | n in labels :: LegalName(n)
    ensures forall n | n in labels["le" := text] :: LegalName(n)
  {
    assert LegalName("le");
  }

  /**
   * A reader of the bucket lines and the count line of a printed histogram gets each bound, once and in order,
   * with the number of latencies at most that bound, and the number of all requests for `+Inf` and the count.
   */
  lemma PrintedHistogramIsReadBack(lines: seq<Sample>, name: string, labels: map<string, string>, log: seq<Record>,
                                   bounds: seq<int>, texts: seq<string>, i: nat)
    requires IsHistogramOf(lines, name, labels, log, bounds, texts) && i < |lines| && i != |bounds| + 1
    requires '{' !in name && forall n | n in labels :: LegalName(n)
    ensures ReadLine(Line(lines[i])) == Some(HistogramLine(name, labels, log, bounds, texts, i))
  {
    var r := HistogramLine(name, labels, log, bounds, texts, i);
    HistogramSample(lines, name, labels, log, bounds, texts, i);
    LegalWithBound(labels, if i < |bounds| then texts[i] else INFINITY);
    LineRoundTrip(lines[i], r.name, r.labels, r.value);
  }
}
