/** The text form of metric labels, and a reader for it. */
module LabelText {
  import opened Text
  import opened Wrappers

  /** Every occurrence of c replaced by r. */
  function ReplaceAll(s: string, c: char, r: string): string {
    if s == "" then "" else (if s[0] == c then r else [s[0]]) + ReplaceAll(s[1..], c, r)
  }

  function EscapeLabelValue(value: string): string {
    ReplaceAll(ReplaceAll(ReplaceAll(value, '\\', "\\\\"), '\n', "\\n"), '\"', "\\\"")
  }

  /** The escape of one character. */
  function EscapeChar(c: char): string {
    if c == '\\' then "\\\\" else if c == '\n' then "\\n" else if c == '\"' then "\\\"" else [c]
  }

  function EscapeOnePass(s: string): string {
    if s == "" then "" else EscapeChar(s[0]) + EscapeOnePass(s[1..])
  }

  lemma {:induction false} ReplaceAllConcat(s: string, t: string, c: char, r: string)
    ensures ReplaceAll(s + t, c, r) == ReplaceAll(s, c, r) + ReplaceAll(t, c, r)
  {
    if s == "" {
      assert s + t == t;
    } else {
      assert (s + t)[1..] == s[1..] + t;
      ReplaceAllConcat(s[1..], t, c, r);
    }
  }

  lemma ReplaceInChar(x: char, c: char, r: string)
    ensures ReplaceAll([x], c, r) == if x == c then r else [x]
  {
    assert [x][1..] == "";
  }

  lemma EscapeOfChar(x: char)
    ensures EscapeLabelValue([x]) == EscapeChar(x)
  {
    ReplaceInChar(x, '\\', "\\\\");
    if x == '\\' {
      assert "\\\\" == "\\" + "\\";
      ReplaceAllConcat("\\", "\\", '\n', "\\n");
      ReplaceInChar('\\', '\n', "\\n");
      ReplaceAllConcat("\\", "\\", '\"', "\\\"");
      ReplaceInChar('\\', '\"', "\\\"");
    } else {
      ReplaceInChar(x, '\n', "\\n");
      if x == '\n' {
        assert "\\n" == "\\" + "n";
        ReplaceAllConcat("\\", "n", '\"', "\\\"");
        ReplaceInChar('\\', '\"', "\\\"");
        ReplaceInChar('n', '\"', "\\\"");
      } else {
        ReplaceInChar(x, '\"', "\\\"");
      }
    }
  }

  /** The three replacements one after the other escape each character once. */
  lemma {:induction false} EscapeIsOnePass(value: string)
    ensures EscapeLabelValue(value) == EscapeOnePass(value)
  {
    if value != "" {
      var x, rest := [value[0]], value[1..];
      EscapeIsOnePass(rest);
      EscapeOfChar(value[0]);
      assert value == x + rest;
      ReplaceAllConcat(x, rest, '\\', "\\\\");
      var a, b := ReplaceAll(x, '\\', "\\\\"), ReplaceAll(rest, '\\', "\\\\");
      ReplaceAllConcat(a, b, '\n', "\\n");
      ReplaceAllConcat(ReplaceAll(a, '\n', "\\n"), ReplaceAll(b, '\n', "\\n"), '\"', "\\\"");
    }
  }

  /**
   * Reads an escaped value up to its closing quote: the value, and the text after the quote. A raw line feed
   * or any other escape is an error.
   */
  function ReadQuoted(s: string): (r: Option<(string, string)>)
    ensures r.Some? ==> |r.value.1| < |s|
    decreases |s|
  {
    if s == "" || s[0] == '\n' then None
    else if s[0] == '\"' then Some(("", s[1..]))
    else if s[0] != '\\' then WithFirst(s[0], ReadQuoted(s[1..]))
    else if |s| == 1 then None
    else if s[1] == '\\' then WithFirst('\\', ReadQuoted(s[2..]))
    else if s[1] == 'n' then WithFirst('\n', ReadQuoted(s[2..]))
    else if s[1] == '\"' then WithFirst('\"', ReadQuoted(s[2..]))
    else None
  }

  function WithFirst(c: char, r: Option<(string, string)>): Option<(string, string)> {
    if r.None? then None else Some(([c] + r.value.0, r.value.1))
  }

  lemma ReadOneChar(c: char, rest: string)
    ensures ReadQuoted(EscapeChar(c) + rest) == WithFirst(c, ReadQuoted(rest))
  {
    var s := EscapeChar(c) + rest;
    assert s[|EscapeChar(c)|..] == rest;
  }

  /** An escaped value is read back exactly, wherever the text goes on. */
  lemma {:induction false} ReadAfterEscape(value: string, rest: string)
    ensures ReadQuoted(EscapeLabelValue(value) + "\"" + rest) == Some((value, rest))
  {
    EscapeIsOnePass(value);
    if value == "" {
      assert ("" + "\"" + rest)[1..] == rest;
    } else {
      ReadAfterEscape(value[1..], rest);
      EscapeIsOnePass(value[1..]);
      var tail := EscapeOnePass(value[1..]) + "\"" + rest;
      assert EscapeOnePass(value) + "\"" + rest == EscapeChar(value[0]) + tail;
      ReadOneChar(value[0], tail);
      assert value == [value[0]] + value[1..];
    }
  }

  /** Only escaped values can be read: escaping is a bijection onto the texts the reader accepts. */
  lemma {:induction false} EscapeAfterRead(s: string)
    requires ReadQuoted(s).Some?
    ensures var r := ReadQuoted(s).value; s == EscapeLabelValue(r.0) + "\"" + r.1
    decreases |s|
  {
    var r := ReadQuoted(s).value;
    EscapeIsOnePass(r.0);
    if s[0] == '\"' {
      assert s == "\"" + s[1..];
    } else {
      var n := if s[0] == '\\' then 2 else 1;
      EscapeAfterRead(s[n..]);
      EscapeIsOnePass(ReadQuoted(s[n..]).value.0);
      assert r.0[1..] == ReadQuoted(s[n..]).value.0;
      assert s == s[..n] + s[n..] && s[..n] == EscapeChar(r.0[0]);
    }
  }

  /** A label name of the text format: letters, digits and underscores, and no digit in front. */
  predicate LegalName(name: string) {
    name != "" && !('0' <= name[0] <= '9') && forall c | c in name :: LegalChar(c)
  }

  predicate LegalChar(c: char) {
    'a' <= c <= 'z' || 'A' <= c <= 'Z' || '0' <= c <= '9' || c == '_'
  }

  function Part(name: string, labels: map<string, string>): string
    requires name in labels
  {
    name + "=\"" + EscapeLabelValue(labels[name]) + "\""
  }

  function Join(parts: seq<string>): string {
    if parts == [] then "" else if |parts| == 1 then parts[0] else parts[0] + "," + Join(parts[1..])
  }

  /** The text of the labels in the order of `names`. */
  ghost function LabelsInOrder(names: seq<string>, labels: map<string, string>): string
    requires forall n | n in names :: n in labels
  {
    "{" + Join(Parts(names, labels)) + "}"
  }

  ghost function Parts(names: seq<string>, labels: map<string, string>): (parts: seq<string>)
    requires forall n | n in names :: n in labels
    ensures |parts| == |names| && forall i | 0 <= i < |names| :: parts[i] == Part(names[i], labels)
  {
    seq(|names|, i requires 0 <= i < |names| => Part(names[i], labels))
  }

  /** The names of a label map in ascending order. */
  ghost predicate ListsNames(names: seq<string>, labels: map<string, string>) {
    NoRepeats(names) && Sorted(names, LexLeq) && forall n :: n in names <==> n in labels
  }

  /** Map iteration is in no particular order. */
  method CollectNames(labels: map<string, string>) returns (names: seq<string>)
    ensures NoRepeats(names) && forall n :: n in names <==> n in labels
  {
    names := [];
    var rest := labels.Keys;
    while rest != {}
      invariant NoRepeats(names)
      invariant forall n :: n in labels <==> n in names || n in rest
      invariant forall n | n in names :: n !in rest
      decreases |rest|
    {
      var name :| name in rest;
      rest := rest - {name};
      names := names + [name];
    }
  }

  lemma SortedNames(names: seq<string>, labels: map<string, string>)
    requires NoRepeats(names) && forall n :: n in names <==> n in labels
    ensures ListsNames(SortedBy(names, LexLeq), labels)
  {
    LexIsTotalOrder();
    SortedByIsSorted(names, LexLeq);
    SortedByKeepsDistinct(names, LexLeq);
    SameMembers(SortedBy(names, LexLeq), names);
  }

  /** The text of a label map: the labels in ascending order of their names, nothing for the empty map. */
  ghost predicate IsLabelText(text: string, labels: map<string, string>) {
    if labels == map[] then text == ""
    else exists names :: ListsNames(names, labels) && text == LabelsInOrder(names, labels)
  }

  method FormatLabels(labels: map<string, string>) returns (text: string)
    ensures IsLabelText(text, labels)
  {
    if |labels| == 0 {
      return "";
    }
    var keys := CollectNames(labels);
    SortedNames(keys, labels);
    keys := SortedBy(keys, LexLeq);
    var parts := RenderParts(keys, labels);
    text := "{" + Join(parts) + "}";
  }

  method RenderParts(keys: seq<string>, labels: map<string, string>) returns (parts: seq<string>)
    requires forall n | n in keys :: n in labels
    ensures parts == Parts(keys, labels)
  {
    parts := [];
    for i := 0 to |keys|
      invariant |parts| == i && forall k | 0 <= k < i :: parts[k] == Part(keys[k], labels)
    {
      assert keys[i] in keys;
      parts := parts + [Part(keys[i], labels)];
    }
  }

  /** Reads one `name="value"` and gives the text after it. */
  function ReadPair(s: string): (r: Option<(string, string, string)>)
    ensures r.Some? ==> |r.value.2| < |s|
  {
    var eq := IndexOf(s, '=');
    if eq.None? || !LegalName(s[..eq.value]) || eq.value + 1 >= |s| || s[eq.value + 1] != '\"' then None
    else
      var r := ReadQuoted(s[eq.value + 2..]);
      if r.None? then None else Some((s[..eq.value], r.value.0, r.value.1))
  }

  /** Reads pairs separated by commas, up to the closing brace that ends the text. */
  function ReadPairs(s: string): Option<seq<(string, string)>>
    decreases |s|
  {
    var r := ReadPair(s);
    if r.None? || r.value.2 == "" then None
    else
      var (name, value, rest) := r.value;
      if rest == "}" then Some([(name, value)])
      else if rest[0] != ',' then None
      else
        var more := ReadPairs(rest[1..]);
        if more.None? then None else Some([(name, value)] + more.value)
  }

  function ToMap(pairs: seq<(string, string)>): map<string, string> {
    if pairs == [] then map[] else ToMap(pairs[1..])[pairs[0].0 := pairs[0].1]
  }

  /** Reads the labels of a sample line. */
  function ReadLabels(text: string): Option<map<string, string>> {
    if text == "" then Some(map[])
    else if text[0] != '{' then None
    else
      var pairs := ReadPairs(text[1..]);
      if pairs.None? then None else Some(ToMap(pairs.value))
  }

  ghost function Pairs(names: seq<string>, labels: map<string, string>): seq<(string, string)>
    requires forall n | n in names :: n in labels
  {
    if names == [] then [] else [(names[0], labels[names[0]])] + Pairs(names[1..], labels)
  }

  lemma ReadNameAndTail(name: string, value: string, tail: string, rest: string)
    requires LegalName(name) && ReadQuoted(tail) == Some((value, rest))
    ensures ReadPair(name + ['='] + ("\"" + tail)) == Some((name, value, rest))
  {
    var s := name + ['='] + ("\"" + tail);
    assert '=' !in name by {
      assert !LegalChar('=');
    }
    FirstIndex(name, '=', "\"" + tail);
    assert s[..|name|] == name && s[|name| + 1] == '\"' && s[|name| + 2..] == tail;
  }

  lemma ReadPart(name: string, labels: map<string, string>, rest: string)
    requires name in labels && LegalName(name)
    ensures ReadPair(Part(name, labels) + rest) == Some((name, labels[name], rest))
  {
    var tail := EscapeLabelValue(labels[name]) + "\"" + rest;
    ReadAfterEscape(labels[name], rest);
    ReadNameAndTail(name, labels[name], tail, rest);
    assert Part(name, labels) + rest == name + ['='] + ("\"" + tail);
  }

  lemma ReadLastPair(part: string, name: string, value: string)
    requires ReadPair(part + "}") == Some((name, value, "}"))
    ensures ReadPairs(part + "}") == Some([(name, value)])
  {
  }

  lemma ReadFirstPair(s: string, name: string, value: string, rest: string, more: seq<(string, string)>)
    requires ReadPair(s) == Some((name, value, rest))
    requires rest != "" && rest[0] == ',' && ReadPairs(rest[1..]) == Some(more)
    ensures ReadPairs(s) == Some([(name, value)] + more)
  {
    assert rest != "}";
  }

  lemma ReadPartAndMore(name: string, labels: map<string, string>, more: string, pairs: seq<(string, string)>)
    requires name in labels && LegalName(name) && ReadPairs(more) == Some(pairs)
    ensures ReadPairs(Part(name, labels) + "," + more) == Some([(name, labels[name])] + pairs)
  {
    var part := Part(name, labels);
    ReadPart(name, labels, "," + more);
    assert part + "," + more == part + ("," + more) && ("," + more)[1..] == more;
    ReadFirstPair(part + "," + more, name, labels[name], "," + more, pairs);
  }

  lemma JoinedParts(parts: seq<string>)
    requires |parts| > 1
    ensures Join(parts) + "}" == parts[0] + "," + (Join(parts[1..]) + "}")
  {
  }

  lemma {:induction false} ReadJoinedParts(names: seq<string>, labels: map<string, string>)
    requires names != [] && forall n | n in names :: n in labels && LegalName(n)
    ensures ReadPairs(Join(Parts(names, labels)) + "}") == Some(Pairs(names, labels))
  {
    var parts, rest := Parts(names, labels), names[1..];
    var name, part := names[0], parts[0];
    if |names| == 1 {
      ReadPart(name, labels, "}");
      ReadLastPair(part, name, labels[name]);
      assert Join(parts) == part && Pairs(names, labels) == [(name, labels[name])];
    } else {
      var more := Join(Parts(rest, labels)) + "}";
      ReadJoinedParts(rest, labels);
      ReadPartAndMore(name, labels, more, Pairs(rest, labels));
      assert parts[1..] == Parts(rest, labels);
      JoinedParts(parts);
    }
  }

  lemma {:induction false} PairsToMap(names: seq<string>, labels: map<string, string>)
    requires NoRepeats(names) && forall n | n in names :: n in labels
    ensures ToMap(Pairs(names, labels)) == map n | n in names :: labels[n]
  {
    if names != [] {
      PairsToMap(names[1..], labels);
      assert names == [names[0]] + names[1..];
      assert Pairs(names, labels)[1..] == Pairs(names[1..], labels);
    }
  }

  lemma ReadBraced(text: string, pairs: seq<(string, string)>)
    requires text != "" && text[0] == '{' && ReadPairs(text[1..]) == Some(pairs)
    ensures ReadLabels(text) == Some(ToMap(pairs))
  {
  }

  lemma ReadInOrder(names: seq<string>, labels: map<string, string>)
    requires names != [] && NoRepeats(names) && forall n | n in names :: n in labels && LegalName(n)
    ensures ReadLabels(LabelsInOrder(names, labels)) == Some(map n | n in names :: labels[n])
  {
    ReadJoinedParts(names, labels);
    assert LabelsInOrder(names, labels)[1..] == Join(Parts(names, labels)) + "}";
    ReadBraced(LabelsInOrder(names, labels), Pairs(names, labels));
    PairsToMap(names, labels);
  }

  lemma ReadListed(names: seq<string>, labels: map<string, string>)
    requires labels != map[] && ListsNames(names, labels) && forall n | n in labels :: LegalName(n)
    ensures ReadLabels(LabelsInOrder(names, labels)) == Some(labels)
  {
    var n :| n in labels;
    assert n in names;
    ReadInOrder(names, labels);
    assert labels == map n | n in names :: labels[n];
  }

  /** The printed labels are read back as exactly the label map, for every map with legal names. */
  lemma LabelsRoundTrip(text: string, labels: map<string, string>)
    requires IsLabelText(text, labels) && forall n | n in labels :: LegalName(n)
    ensures ReadLabels(text) == Some(labels)
  {
    if labels != map[] {
      var names :| ListsNames(names, labels) && text == LabelsInOrder(names, labels);
      ReadListed(names, labels);
    }
  }

  /** The text does not depend on the order in which the map is walked. */
  lemma LabelTextIsUnique(text: string, other: string, labels: map<string, string>)
    requires IsLabelText(text, labels) && IsLabelText(other, labels)
    ensures text == other
  {
    if labels != map[] {
      var xs :| ListsNames(xs, labels) && text == LabelsInOrder(xs, labels);
      var ys :| ListsNames(ys, labels) && other == LabelsInOrder(ys, labels);
      AscendingListingIsUnique(xs, ys);
    }
  }
}
