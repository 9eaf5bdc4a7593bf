/** Names of the objects the operator creates: truncation to a maximal length, which is covered for ASCII text, where
    bytes and characters are the same, and mapping to DNS labels, for any text. */
module Naming {

  type Ascii = c: char | c as int < 128 witness 'a'
  type Text = seq<Ascii>

  predicate IsAlphaNumeric(c: char) {
    'a' <= c <= 'z' || 'A' <= c <= 'Z' || '0' <= c <= '9'
  }

  // ---------------------------------------------------------------- truncation

  /** An argument of a format: a string, which may be shortened, or anything else, of which only the text matters. */
  datatype Value = Str(text: Text) | Other(text: Text)

  /** A format is the list of its fixed parts; between two of them goes one argument. */
  function Sprintf(format: seq<Text>, values: seq<Value>): Text
    requires |format| == |values| + 1
  {
    if values == [] then format[0]
    else Sprintf(format[..|values|], values[..|values| - 1]) + values[|values| - 1].text + format[|values|]
  }

  /** What of the excess is still to be removed after some arguments have been shortened. */
  function Left(values: seq<Value>, excess: nat): nat {
    if values == [] then excess
    else
      var left, v := Left(values[..|values| - 1], excess), values[|values| - 1];
      if v.Other? then left else if |v.text| > left then 0 else left - |v.text|
  }

  function Cut(v: Value, left: nat): Value {
    if v.Other? then v else if |v.text| > left then Str(v.text[..|v.text| - left]) else Str("")
  }

  /** The arguments with the excess removed, from the ends of the strings, the first string first. */
  function Shortened(values: seq<Value>, excess: nat): (shortened: seq<Value>)
    ensures |shortened| == |values|
  {
    if values == [] then []
    else
      var before := values[..|values| - 1];
      Shortened(before, excess) + [Cut(values[|values| - 1], Left(before, excess))]
  }

  function TrimEnd(text: Text): Text {
    if text == "" || IsAlphaNumeric(text[|text| - 1]) then text else TrimEnd(text[..|text| - 1])
  }

  function TrimStart(text: Text): Text {
    if text == "" || IsAlphaNumeric(text[0]) then text else TrimStart(text[1..])
  }

  function Trim(text: Text): Text {
    TrimStart(TrimEnd(text))
  }

  /** The text before the final cap and trim. */
  function Fitted(format: seq<Text>, max: nat, values: seq<Value>): Text
    requires |format| == |values| + 1
  {
    var full := Sprintf(format, values);
    if |full| <= max then full else Sprintf(format, Shortened(values, |full| - max))
  }

  function Truncated(format: seq<Text>, max: nat, values: seq<Value>): Text
    requires |format| == |values| + 1
  {
    var fitted := Fitted(format, max, values);
    if |fitted| > max then fitted[..max] else Trim(fitted)
  }

  lemma OneMoreShortened(values: seq<Value>, excess: nat, i: nat)
    requires i < |values|
    ensures Shortened(values[..i + 1], excess) == Shortened(values[..i], excess)
        + [Cut(values[i], Left(values[..i], excess))]
    ensures Left(values[..i + 1], excess) ==
              var left, v := Left(values[..i], excess), values[i];
              if v.Other? then left else if |v.text| > left then 0 else left - |v.text|
  {
    assert values[..i + 1][..i] == values[..i];
  }

  /** Goes through the arguments and takes the excess off the strings it meets. */
  method Shorten(values: seq<Value>, total: nat) returns (truncated: seq<Value>)
    ensures truncated == Shortened(values, total)
  {
    var excess := total;
    truncated := [];
    for i := 0 to |values|
      invariant excess == Left(values[..i], total)
      invariant truncated == Shortened(values[..i], total)
    {
      OneMoreShortened(values, total, i);
      var value := values[i];
      if excess == 0 {
        truncated := truncated + [value];
        WholeIfNothingLeft(value);
        continue;
      }
      if value.Str? {
        if |value.text| > excess {
          value := Str(value.text[..|value.text| - excess]);
          excess := 0;
        } else {
          excess := excess - |value.text|;
          value := Str("");
        }
      }
      truncated := truncated + [value];
    }
    assert values[..|values|] == values;
  }

  lemma WholeIfNothingLeft(v: Value)
    ensures Cut(v, 0) == v
  {
  }

  method Truncate(format: seq<Text>, max: nat, values: seq<Value>) returns (result: Text)
    requires |format| == |values| + 1
    ensures result == Truncated(format, max, values)
  {
    result := Sprintf(format, values);
    if |result| > max {
      var truncated := Shorten(values, |result| - max);
      result := Sprintf(format, truncated);
    }
    if |result| > max {
      return result[..max];
    }
    return Trim(result);
  }

  // ---------------------------------------------------------------- lengths

  /** How much the string arguments have to give. */
  function Available(values: seq<Value>): nat {
    if values == [] then 0
    else
      var v := values[|values| - 1];
      Available(values[..|values| - 1]) + if v.Str? then |v.text| else 0
  }

  lemma {:induction false} LeftIsRest(values: seq<Value>, excess: nat)
    ensures Left(values, excess) == if excess >= Available(values) then excess - Available(values) else 0
  {
    if values != [] {
      LeftIsRest(values[..|values| - 1], excess);
    }
  }

  /** Shortening takes away exactly the excess, or all there is. */
  lemma {:induction false} ShortenedLength(format: seq<Text>, values: seq<Value>, excess: nat)
    requires |format| == |values| + 1
    ensures |Sprintf(format, Shortened(values, excess))| == |Sprintf(format, values)| - (excess - Left(values, excess))
    ensures Left(values, excess) <= excess
  {
    if values != [] {
      var before := values[..|values| - 1];
      ShortenedLength(format[..|values|], before, excess);
      assert Shortened(values, excess)[..|values| - 1] == Shortened(before, excess);
    }
  }

  function Excess(format: seq<Text>, max: nat, values: seq<Value>): nat
    requires |format| == |values| + 1
  {
    if |Sprintf(format, values)| > max then |Sprintf(format, values)| - max else 0
  }

  lemma FittedLength(format: seq<Text>, max: nat, values: seq<Value>)
    requires |format| == |values| + 1
    ensures |Fitted(format, max, values)| ==
              |Sprintf(format, values)| - Excess(format, max, values) + Left(values, Excess(format, max, values))
  {
    LeftIsRest(values, Excess(format, max, values));
    if |Sprintf(format, values)| > max {
      ShortenedLength(format, values, |Sprintf(format, values)| - max);
    }
  }

  /** A fixed part that is too long is cut, not left alone. */
  lemma FixedPartIsCut(fixed: Text, max: nat)
    requires |fixed| > max
    ensures Truncated([fixed], max, []) == fixed[..max] != fixed
  {
    assert Fitted([fixed], max, []) == fixed;
  }

  /** A truncated text fits. If the string arguments are long enough, the excess is removed exactly and the fixed parts
      stay whole; otherwise the text is cut off at the limit. */
  lemma TruncatedFits(format: seq<Text>, max: nat, values: seq<Value>)
    requires |format| == |values| + 1
    ensures |Truncated(format, max, values)| <= max
    ensures Excess(format, max, values) <= Available(values) ==>
              && Truncated(format, max, values) == Trim(Fitted(format, max, values))
              && |Fitted(format, max, values)| == |Sprintf(format, values)| - Excess(format, max, values)
    ensures Excess(format, max, values) > Available(values) ==> |Truncated(format, max, values)| == max
  {
    FittedLength(format, max, values);
    LeftIsRest(values, Excess(format, max, values));
    TrimIsShorter(Fitted(format, max, values));
  }

  /** Only one argument is cut: those before it are used up, those after it are whole. */
  lemma {:induction false} ShortenedFromTheFront(values: seq<Value>, excess: nat, i: nat, j: nat)
    requires i < j < |values| && Shortened(values, excess)[i] != Str("") && values[i].Str?
    ensures Shortened(values, excess)[j] == values[j]
    ensures Left(values[..i + 1], excess) == 0
  {
    LeftIsRest(values[..i + 1], excess);
    LeftIsRest(values[..j], excess);
    AvailableGrows(values, i + 1, j);
    ShortenedAt(values, excess, i);
    ShortenedAt(values, excess, j);
    assert values[..i + 1][..i] == values[..i];
  }

  lemma {:induction false} ShortenedAt(values: seq<Value>, excess: nat, i: nat)
    requires i < |values|
    ensures Shortened(values, excess)[i] == Cut(values[i], Left(values[..i], excess))
  {
    var before := values[..|values| - 1];
    if i < |values| - 1 {
      ShortenedAt(before, excess, i);
      assert before[..i] == values[..i];
    }
  }

  lemma {:induction false} AvailableGrows(values: seq<Value>, i: nat, j: nat)
    requires i <= j <= |values|
    ensures Available(values[..i]) <= Available(values[..j])
  {
    if i < j {
      assert values[..j][..j - 1] == values[..j - 1];
      AvailableGrows(values, i, j - 1);
    }
  }

  lemma {:induction false} TrimIsShorter(text: Text)
    ensures |Trim(text)| <= |text|
  {
    TrimEndIsShorter(text);
    TrimStartIsShorter(TrimEnd(text));
  }

  lemma {:induction false} TrimEndIsShorter(text: Text)
    ensures |TrimEnd(text)| <= |text|
  {
    if text != "" && !IsAlphaNumeric(text[|text| - 1]) {
      TrimEndIsShorter(text[..|text| - 1]);
    }
  }

  lemma {:induction false} TrimStartIsShorter(text: Text)
    ensures |TrimStart(text)| <= |text|
  {
    if text != "" && !IsAlphaNumeric(text[0]) {
      TrimStartIsShorter(text[1..]);
    }
  }

  // ---------------------------------------------------------------- DNS labels

  function Lower(c: Ascii): Ascii {
    if 'A' <= c <= 'Z' then (c as int + 32) as char else c
  }

  predicate IsLabelChar(c: char) {
    'a' <= c <= 'z' || '0' <= c <= '9'
  }

  /** A host name label as section 2.1 of RFC 1123 and section 2.3.4 of RFC 1035 have it, in lower case. */
  predicate IsLabel(s: string) {
    && 1 <= |s| <= 63
    && IsLabelChar(s[0]) && IsLabelChar(s[|s| - 1])
    && forall i | 0 <= i < |s| :: IsLabelChar(s[i]) || s[i] == '-'
  }

  function DnsChar(name: Text, i: nat): Ascii
    requires i < |name|
  {
    if IsLabelChar(Lower(name[i])) then Lower(name[i]) else if i == 0 || i == |name| - 1 then 'a' else '-'
  }

  function DnsName(name: Text): (d: Text)
    ensures |d| == |name|
  {
    seq(|name|, i requires 0 <= i < |name| => DnsChar(name, i))
  }

  /** The bytes a character takes. */
  function Width(c: char): nat {
    if c as int < 0x80 then 1 else if c as int < 0x800 then 2 else if c as int < 0x1_0000 then 3 else 4
  }

  /** The byte at which a character begins. */
  function Offset(s: string, i: nat): nat
    requires i <= |s|
  {
    if i == 0 then 0 else Offset(s, i - 1) + Width(s[i - 1])
  }

  function Lowered(name: string, lower: char -> char): (low: string)
    ensures |low| == |name|
  {
    seq(|name|, i requires 0 <= i < |name| => lower(name[i]))
  }

  /** The replacement of one character: the ends are recognised by comparing the byte at which it begins with the number
      of characters. */
  function DnsRune(low: string, i: nat): char
    requires i < |low|
  {
    if IsLabelChar(low[i]) then low[i] else if Offset(low, i) == 0 || Offset(low, i) == |low| - 1 then 'a' else '-'
  }

  /** The mapping on any text, for any way to lower the case of single characters. */
  function DnsRunes(name: string, lower: char -> char): (d: string)
    ensures |d| == |name|
  {
    var low := Lowered(name, lower);
    seq(|low|, i requires 0 <= i < |low| => DnsRune(low, i))
  }

  method MakeDnsName(name: string, lower: char -> char) returns (d: string)
    ensures d == DnsRunes(name, lower)
  {
    d := [];
    var low, offset := Lowered(name, lower), 0;
    for i := 0 to |low|
      invariant offset == Offset(low, i)
      invariant |d| == i && forall j | 0 <= j < i :: d[j] == DnsRune(low, j)
    {
      if IsLabelChar(low[i]) {
        d := d + [low[i]];
      } else if offset == 0 || offset == |name| - 1 {
        d := d + ['a'];
      } else {
        d := d + ['-'];
      }
      offset := offset + Width(low[i]);
    }
  }

  lemma {:induction false} OffsetLaw(s: string, i: nat)
    requires i <= |s|
    ensures Offset(s, i) >= i
    ensures Offset(s, i) == i <==> forall j | 0 <= j < i :: Width(s[j]) == 1
  {
    if i > 0 {
      OffsetLaw(s, i - 1);
    }
  }

  /** Exactly when the result is a label: the text has 1 to 63 characters, and its last one is a letter or digit or has
      only single-byte characters before it. */
  lemma DnsNameIsLabel(name: string, lower: char -> char)
    ensures var low, n := Lowered(name, lower), |name|;
            IsLabel(DnsRunes(name, lower)) <==>
              1 <= n <= 63 && (IsLabelChar(low[n - 1]) || forall i | 0 <= i < n - 1 :: Width(low[i]) == 1)
  {
    if name != "" {
      var low, d := Lowered(name, lower), DnsRunes(name, lower);
      assert d[0] == DnsRune(low, 0) && d[|d| - 1] == DnsRune(low, |d| - 1);
      assert forall i | 0 <= i < |d| :: d[i] == DnsRune(low, i);
      OffsetLaw(low, |low| - 1);
    }
  }

  /** A character of several bytes hides the end: what is not allowed there becomes a hyphen, and the result is no
      label. */
  lemma WideCharacterHidesEnd(x: char, y: char, lower: char -> char)
    requires Width(lower(x)) > 1 && !IsLabelChar(lower(y))
    ensures DnsRunes([x, y], lower) == "a-" && !IsLabel(DnsRunes([x, y], lower))
  {
    var low := Lowered([x, y], lower);
    assert low == [lower(x), lower(y)];
    assert Offset(low, 0) == 0 && Offset(low, 1) == Offset(low, 0) + Width(low[0]);
    DnsNameIsLabel([x, y], lower);
  }

  /** For example, an accented letter and an underscore. */
  lemma AccentHidesEnd()
    ensures DnsRunes("\U{00E9}_", c => c) == "a-"
  {
    WideCharacterHidesEnd('\U{00E9}', '_', c => c);
    assert "\U{00E9}_" == ['\U{00E9}', '_'];
  }

  /** On ASCII text it is a mapping by position. */
  lemma DnsNameOfAscii(name: Text, lower: char -> char)
    requires forall c: Ascii :: lower(c) == Lower(c)
    ensures DnsRunes(name, lower) == DnsName(name)
  {
    var low := Lowered(name, lower);
    forall i | 0 <= i < |name|
      ensures DnsRune(low, i) == DnsChar(name, i)
    {
      var c: Ascii := name[i];
      OffsetLaw(low, i);
      forall j | 0 <= j < i
        ensures Width(low[j]) == 1
      {
        var c': Ascii := name[j];
        assert lower(c') == Lower(c');
      }
    }
  }

  /** The composition all names are made with. */
  function NameFor(format: seq<Text>, values: seq<Value>): Text
    requires |format| == |values| + 1
  {
    DnsName(Truncated(format, 63, values))
  }

  /** The format that consists of one argument. */
  const PLAIN: seq<Text> := ["", ""]

  lemma {:induction false} TrimEndLaw(text: Text)
    ensures TrimEnd(text) == "" <==> forall i | 0 <= i < |text| :: !IsAlphaNumeric(text[i])
    ensures TrimEnd(text) != "" ==> IsAlphaNumeric(TrimEnd(text)[|TrimEnd(text)| - 1])
  {
    if text != "" && !IsAlphaNumeric(text[|text| - 1]) {
      TrimEndLaw(text[..|text| - 1]);
      assert forall i | 0 <= i < |text| - 1 :: text[i] == text[..|text| - 1][i];
    }
  }

  lemma {:induction false} TrimStartLaw(text: Text)
    requires text != "" && IsAlphaNumeric(text[|text| - 1])
    ensures TrimStart(text) != "" && IsAlphaNumeric(TrimStart(text)[0])
    ensures IsAlphaNumeric(TrimStart(text)[|TrimStart(text)| - 1])
  {
    if !IsAlphaNumeric(text[0]) {
      TrimStartLaw(text[1..]);
    }
  }

  /** Trimmed text is empty exactly if there is nothing to keep; otherwise it begins and ends with letters or digits. */
  lemma TrimLaw(text: Text)
    ensures Trim(text) == "" <==> forall i | 0 <= i < |text| :: !IsAlphaNumeric(text[i])
    ensures Trim(text) != "" ==> IsAlphaNumeric(Trim(text)[0]) && IsAlphaNumeric(Trim(text)[|Trim(text)| - 1])
  {
    TrimEndLaw(text);
    if TrimEnd(text) != "" {
      TrimStartLaw(TrimEnd(text));
    }
  }

  /** Whatever the format and its arguments, the name is a label, unless no letter or digit is left. */
  lemma NamesAreLabels(format: seq<Text>, values: seq<Value>)
    requires |format| == |values| + 1
    ensures var fitted := Fitted(format, 63, values);
            if |fitted| <= 63 && forall i | 0 <= i < |fitted| :: !IsAlphaNumeric(fitted[i])
            then NameFor(format, values) == "" else IsLabel(NameFor(format, values))
  {
    var fitted, truncated := Fitted(format, 63, values), Truncated(format, 63, values);
    TruncatedFits(format, 63, values);
    TrimLaw(fitted);
    if truncated != "" {
      var d := DnsName(truncated);
      assert forall i | 0 <= i < |d| :: d[i] == DnsChar(truncated, i);
    }
  }

  lemma PlainText(text: Text)
    ensures Sprintf(PLAIN, [Str(text)]) == text
  {
    assert PLAIN[..1] == [""] && [Str(text)][..0] == [];
    assert Sprintf(PLAIN[..1], []) == "";
  }

  /** Labels are left as they are. So a name made from a name, whatever that was made from, is that name. */
  lemma LabelsAreFixed(s: Text)
    requires IsLabel(s)
    ensures NameFor(PLAIN, [Str(s)]) == s
  {
    PlainText(s);
    assert Trim(s) == s;
    assert forall i | 0 <= i < |s| :: DnsChar(s, i) == s[i];
  }

  lemma NamingTwice(format: seq<Text>, values: seq<Value>)
    requires |format| == |values| + 1
    ensures NameFor(PLAIN, [Str(NameFor(format, values))]) == NameFor(format, values)
  {
    NamesAreLabels(format, values);
    if NameFor(format, values) == "" {
      PlainText("");
    } else {
      LabelsAreFixed(NameFor(format, values));
    }
  }

  // ---------------------------------------------------------------- the label that tells owners apart

  /** The value of the label by which the objects of one owner are found again. */
  function InstanceLabel(namespace: Text, name: Text): Text {
    Truncated(["", ".", ""], 63, [Str(namespace), Str(name)])
  }

  lemma InstanceText(a: Text, b: Text)
    ensures Sprintf(["", ".", ""], [Str(a), Str(b)]) == a + "." + b
  {
    var format: seq<Text> := ["", ".", ""];
    assert format[..2] == ["", "."] && format[..2][..1] == [""];
    assert [Str(a), Str(b)][..1] == [Str(a)] && [Str(a)][..0] == [];
    assert Sprintf(format[..2][..1], []) == "";
    assert Sprintf(format[..2], [Str(a)]) == a + ".";
  }

  predicate IsTidy(s: Text) {
    s != "" && IsAlphaNumeric(s[0]) && IsAlphaNumeric(s[|s| - 1])
  }

  /** How much of the namespace is left in front of a name of less than 62 characters. */
  function Room(namespace: Text, name: Text): nat
    requires |name| < 62
  {
    if |namespace| + |name| <= 62 then |namespace| else 62 - |name|
  }

  lemma TwoShortened(a: Text, b: Text, excess: nat)
    ensures Shortened([Str(a), Str(b)], excess) ==
              [Cut(Str(a), excess), Cut(Str(b), if |a| > excess then 0 else excess - |a|)]
  {
    var values := [Str(a), Str(b)];
    assert values[..1] == [Str(a)] && values[..1][..0] == [];
    assert Left(values[..1], excess) == if |a| > excess then 0 else excess - |a|;
    assert Shortened(values[..1], excess) == [Cut(Str(a), excess)];
  }

  /** What becomes of namespace and name before the final cap and trim, if they are too long together. */
  lemma InstanceFitted(namespace: Text, name: Text)
    ensures var excess: int := |namespace| + |name| - 62;
            Fitted(["", ".", ""], 63, [Str(namespace), Str(name)]) ==
              if excess <= 0 then namespace + "." + name
              else if |namespace| > excess then namespace[..|namespace| - excess] + "." + name
              else "" + "." + (if |name| >= 62 then name[..62] else "")
  {
    InstanceText(namespace, name);
    var excess: int := |namespace| + |name| - 62;
    if excess > 0 {
      TwoShortened(namespace, name, excess);
      assert name[..|name|] == name;
      if |namespace| > excess {
        InstanceText(namespace[..|namespace| - excess], name);
      } else {
        InstanceText("", if |name| >= 62 then name[..62] else "");
      }
    }
  }

  lemma ShortNameLabel(namespace: Text, name: Text)
    requires |name| < 62 && IsTidy(namespace) && IsTidy(name)
    ensures InstanceLabel(namespace, name) == namespace[..Room(namespace, name)] + "." + name
  {
    var text := namespace[..Room(namespace, name)] + "." + name;
    InstanceFitted(namespace, name);
    assert namespace[..|namespace|] == namespace;
    assert IsTidy(text) && Trim(text) == text;
  }

  /** Of a long name the label has no more than the first 62 characters, and nothing of the namespace. */
  lemma LongNameLabel(namespace: Text, name: Text)
    requires |name| >= 62 && namespace != ""
    ensures InstanceLabel(namespace, name) == Trim("." + name[..62])
  {
    InstanceFitted(namespace, name);
    assert "" + "." + name[..62] == "." + name[..62];
  }

  /** What a label keeps of a long name. */
  function Kept(name: Text): Text
    requires |name| >= 62
  {
    Trim(name[..62])
  }

  lemma {:induction false} TrimEndBehind(c: Ascii, text: Text)
    requires exists i :: 0 <= i < |text| && IsAlphaNumeric(text[i])
    ensures TrimEnd([c] + text) == [c] + TrimEnd(text)
  {
    if !IsAlphaNumeric(text[|text| - 1]) {
      var shorter := text[..|text| - 1];
      var i :| 0 <= i < |text| && IsAlphaNumeric(text[i]);
      assert shorter[i] == text[i];
      TrimEndBehind(c, shorter);
      assert ([c] + text)[..|[c] + text| - 1] == [c] + shorter;
    }
  }

  lemma LongNameKept(namespace: Text, name: Text)
    requires |name| >= 62 && IsTidy(name) && namespace != ""
    ensures InstanceLabel(namespace, name) == Kept(name) && |Kept(name)| <= 62
  {
    LongNameLabel(namespace, name);
    var text := name[..62];
    assert IsAlphaNumeric(text[0]);
    TrimEndBehind('.', text);
    TrimEndLaw(text);
    assert "." + text == ['.'] + text;
    assert (['.'] + TrimEnd(text))[1..] == TrimEnd(text);
    TrimEndIsShorter(text);
    TrimStartIsShorter(TrimEnd(text));
  }

  lemma FirstDot(p: Text, q: Text, a: Text, b: Text)
    requires '.' !in p && '.' !in q && p + "." + a == q + "." + b
    ensures p == q && a == b
  {
    var l, r := p + "." + a, q + "." + b;
    assert l[|p|] == '.' && r[|q|] == '.';
    assert forall i | 0 <= i < |p| :: l[i] == p[i] && l[i] != '.';
    assert forall i | 0 <= i < |q| :: r[i] == q[i] && r[i] != '.';
    assert |p| == |q|;
    assert p == l[..|p|] && q == r[..|q|];
    assert a == l[|p| + 1..] && b == r[|q| + 1..];
  }

  /** A short name behind its namespace is what is kept of a long one. */
  predicate Extends(namespace: Text, short: Text, long: Text) {
    |short| < 62 && |long| >= 62 && Kept(long) == namespace + "." + short
  }

  lemma ShortAndLong(namespace: Text, short: Text, long: Text)
    requires IsTidy(namespace) && IsTidy(short) && IsTidy(long) && |short| < 62 && |long| >= 62
    ensures InstanceLabel(namespace, short) == InstanceLabel(namespace, long) <==> Extends(namespace, short, long)
  {
    ShortNameLabel(namespace, short);
    LongNameKept(namespace, long);
    assert namespace[..|namespace|] == namespace;
    assert |namespace[..Room(namespace, short)] + "." + short| == Room(namespace, short) + 1 + |short|;
    assert |namespace + "." + short| == |namespace| + 1 + |short|;
  }

  /** Exactly when the label does not tell two owners of one namespace apart: they are the same, or they have long names
      of which the same is kept, or what is kept of one long name is the namespace and the other, short, name. */
  lemma LabelsTellApart(namespace: Text, a: Text, b: Text)
    requires IsTidy(namespace) && '.' !in namespace && IsTidy(a) && IsTidy(b)
    ensures InstanceLabel(namespace, a) == InstanceLabel(namespace, b) <==>
              || a == b
              || (|a| >= 62 && |b| >= 62 && Kept(a) == Kept(b))
              || Extends(namespace, a, b) || Extends(namespace, b, a)
  {
    if |a| < 62 && |b| < 62 {
      ShortNameLabel(namespace, a);
      ShortNameLabel(namespace, b);
      if InstanceLabel(namespace, a) == InstanceLabel(namespace, b) {
        FirstDot(namespace[..Room(namespace, a)], namespace[..Room(namespace, b)], a, b);
      }
    } else if |a| < 62 {
      ShortAndLong(namespace, a, b);
    } else if |b| < 62 {
      ShortAndLong(namespace, b, a);
    } else {
      LongNameKept(namespace, a);
      LongNameKept(namespace, b);
    }
  }

  /** The third case does occur: a long name that begins with the namespace and a short name. */
  lemma NamespaceInName(namespace: Text, a: Text, tail: Text)
    requires IsTidy(namespace) && IsTidy(a) && |namespace| + 1 + |a| == 62
    ensures var b := namespace + "." + a + tail;
            Extends(namespace, a, b) && (IsTidy(b) ==> InstanceLabel(namespace, a) == InstanceLabel(namespace, b))
  {
    var b, short := namespace + "." + a + tail, namespace + "." + a;
    assert b[..62] == short;
    assert IsTidy(short) && Trim(short) == short;
    if IsTidy(b) {
      ShortAndLong(namespace, a, b);
    }
  }

  /** Names of less than 62 characters are told apart. */
  lemma ShortNamesAreSafe(namespace: Text, a: Text, b: Text)
    requires IsTidy(namespace) && '.' !in namespace && IsTidy(a) && IsTidy(b) && |a| < 62 && |b| < 62
    ensures InstanceLabel(namespace, a) == InstanceLabel(namespace, b) <==> a == b
  {
    LabelsTellApart(namespace, a, b);
  }
}
