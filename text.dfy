/**
 * The JavaScript string operations the application relies on: `trim`, `toLowerCase`,
 * `startsWith`, `includes`, `split`, `Number.prototype.toString` and `padStart`.
 */
module Text {
  import opened Seqs

  /** The characters `String.prototype.trim` removes: ECMAScript WhiteSpace and LineTerminator. */
  predicate IsJsSpace(c: char) {
    c == ' ' || c == '\t' || c == '\n' || c == '\r' || c == '\U{B}' || c == '\U{C}' ||
    c == '\U{A0}' || c == '\U{1680}' || ('\U{2000}' <= c <= '\U{200A}') ||
    c == '\U{2028}' || c == '\U{2029}' || c == '\U{202F}' || c == '\U{205F}' ||
    c == '\U{3000}' || c == '\U{FEFF}'
  }

  /** No white space at either end: what `trim` returns, and what it leaves unchanged. */
  predicate IsTrimmed(s: string) {
    s == [] || (!IsJsSpace(s[0]) && !IsJsSpace(s[|s| - 1]))
  }

  function TrimStart(s: string): (r: string)
    ensures |r| <= |s| && r == s[|s| - |r|..]
    ensures r == [] || !IsJsSpace(r[0])
    ensures forall i :: 0 <= i < |s| - |r| ==> IsJsSpace(s[i])
  {
    if s != [] && IsJsSpace(s[0]) then TrimStart(s[1..]) else s
  }

  function TrimEnd(s: string): (r: string)
    ensures |r| <= |s| && r == s[..|r|]
    ensures r == [] || !IsJsSpace(r[|r| - 1])
    ensures forall i :: |r| <= i < |s| ==> IsJsSpace(s[i])
  {
    if s != [] && IsJsSpace(s[|s| - 1]) then TrimEnd(s[..|s| - 1]) else s
  }

  /**
   * `r` is `s` with only white space cut off its two ends, the part cut off the front
   * being `i` characters long.
   */
  predicate CutAt(s: string, i: int, r: string) {
    0 <= i && i + |r| <= |s| && r == s[i..i + |r|] &&
    (forall k :: 0 <= k < i ==> IsJsSpace(s[k])) &&
    (forall k :: i + |r| <= k < |s| ==> IsJsSpace(s[k]))
  }

  /** `String.prototype.trim`: `s` without its leading and trailing white space. */
  function Trim(s: string): (r: string)
    ensures IsTrimmed(r)
    ensures IsTrimmed(s) ==> r == s
    ensures |r| <= |s| && forall c :: c in r ==> c in s
    ensures CutAt(s, |s| - |TrimStart(s)|, r)
  {
    var t := TrimStart(s);
    var r := TrimEnd(t);
    TrimCutsSpace(s, t, r);
    r
  }

  /** Cutting white space off the front and then off the back leaves a trimmed infix of `s`. */
  lemma TrimCutsSpace(s: string, t: string, r: string)
    requires |t| <= |s| && t == s[|s| - |t|..] && forall k :: 0 <= k < |s| - |t| ==> IsJsSpace(s[k])
    requires t == [] || !IsJsSpace(t[0])
    requires |r| <= |t| && r == t[..|r|] && forall k :: |r| <= k < |t| ==> IsJsSpace(t[k])
    requires r == [] || !IsJsSpace(r[|r| - 1])
    ensures IsTrimmed(r)
    ensures forall c :: c in r ==> c in s
    ensures CutAt(s, |s| - |t|, r)
  {
    var i := |s| - |t|;
    assert r == [] || r[0] == t[0];
    forall k | i + |r| <= k < |s| ensures IsJsSpace(s[k]) {
      assert s[k] == t[k - i];
    }
    assert forall c :: c in r ==> c in t;
  }

  /** Leading white space does not change what `trim` returns. */
  lemma TrimSkipsLeadingSpace(c: char, s: string)
    requires IsJsSpace(c)
    ensures Trim([c] + s) == Trim(s)
  {
    assert ([c] + s)[1..] == s;
  }

  /** `toLowerCase` on one character: Basic Latin and Latin-1 capitals map to their small letters. */
  function LowerChar(c: char): char {
    if 'A' <= c <= 'Z' || ('\U{C0}' <= c <= '\U{DE}' && c != '\U{D7}') then (c as int + 32) as char
    else c
  }

  /** `String.prototype.toLowerCase`, character by character. */
  function ToLower(s: string): (r: string)
    ensures |r| == |s|
    ensures forall i :: 0 <= i < |s| ==> r[i] == LowerChar(s[i])
  {
    seq(|s|, i requires 0 <= i < |s| => LowerChar(s[i]))
  }

  /** Lower-casing twice is lower-casing once. */
  lemma ToLowerIdempotent(s: string)
    ensures ToLower(ToLower(s)) == ToLower(s)
  {
  }

  /** `String.prototype.startsWith`. */
  predicate StartsWith(s: string, prefix: string) {
    |prefix| <= |s| && s[..|prefix|] == prefix
  }

  /** `String.prototype.includes`: `sub` occurs somewhere in `s`. */
  predicate Contains(s: string, sub: string) {
    StartsWith(s, sub) || (s != [] && Contains(s[1..], sub))
  }

  /** Every string includes the empty string. */
  lemma ContainsEmpty(s: string)
    ensures Contains(s, "")
  {
  }

  /** The inverse of `split`: the parts glued together with `sep` between them. */
  function Join(parts: seq<string>, sep: char): string {
    if parts == [] then ""
    else if |parts| == 1 then parts[0]
    else parts[0] + [sep] + Join(parts[1..], sep)
  }

  /** `String.prototype.split` on one character: the maximal pieces between the separators. */
  function Split(s: string, sep: char): (r: seq<string>)
    ensures |r| >= 1
    ensures forall i :: 0 <= i < |r| ==> sep !in r[i]
    ensures Join(r, sep) == s
  {
    if s == [] then [""]
    else
      var rest := Split(s[1..], sep);
      if s[0] == sep then
        assert ([""] + rest)[1..] == rest;
        [""] + rest
      else
        var r := [[s[0]] + rest[0]] + rest[1..];
        assert r[1..] == rest[1..];
        assert |rest| > 1 ==> Join(rest, sep) == rest[0] + [sep] + Join(rest[1..], sep);
        assert s == [s[0]] + s[1..];
        r
  }

  /** Splitting `a + t` where `a` holds no separator glues `a` onto the first piece of `t`. */
  lemma {:induction false} SplitPrefix(a: string, t: string, sep: char)
    requires sep !in a
    ensures Split(a + t, sep) == [a + Split(t, sep)[0]] + Split(t, sep)[1..]
  {
    if a == [] {
      assert a + t == t;
      var r := Split(t, sep);
      assert r == [r[0]] + r[1..];
      assert a + r[0] == r[0];
    } else {
      assert (a + t)[0] == a[0];
      assert (a + t)[1..] == a[1..] + t;
      SplitPrefix(a[1..], t, sep);
      assert [a[0]] + (a[1..] + Split(t, sep)[0]) == a + Split(t, sep)[0];
    }
  }

  /** `split` undoes `Join` when no part contains the separator. */
  lemma {:induction false} SplitJoin(parts: seq<string>, sep: char)
    requires |parts| >= 1
    requires forall i :: 0 <= i < |parts| ==> sep !in parts[i]
    ensures Split(Join(parts, sep), sep) == parts
  {
    if |parts| == 1 {
      SplitPrefix(parts[0], "", sep);
      assert parts[0] + "" == parts[0];
    } else {
      var rest := Join(parts[1..], sep);
      assert Join(parts, sep) == parts[0] + ([sep] + rest);
      SplitPrefix(parts[0], [sep] + rest, sep);
      assert ([sep] + rest)[1..] == rest;
      assert Split([sep] + rest, sep) == [""] + Split(rest, sep);
      assert parts[0] + "" == parts[0];
      SplitJoin(parts[1..], sep);
      assert parts == [parts[0]] + parts[1..];
    }
  }

  /** `lines.map(l => l.trim())`. */
  function TrimAll(lines: seq<string>): (r: seq<string>)
    ensures |r| == |lines|
    ensures forall i :: 0 <= i < |lines| ==> r[i] == Trim(lines[i])
  {
    if lines == [] then [] else [Trim(lines[0])] + TrimAll(lines[1..])
  }

  /** Trimming every line of `[x] + rest` trims `x` and then every line of `rest`. */
  lemma TrimAllCons(x: string, rest: seq<string>)
    ensures TrimAll([x] + rest) == [Trim(x)] + TrimAll(rest)
  {
    assert ([x] + rest)[1..] == rest;
  }

  /** Lines without a line break, once trimmed, are trimmed lines without a line break. */
  lemma {:induction false} TrimAllLines(lines: seq<string>)
    requires forall i :: 0 <= i < |lines| ==> '\n' !in lines[i]
    ensures forall l :: l in TrimAll(lines) ==> IsTrimmed(l) && '\n' !in l
  {
    if lines != [] {
      TrimAllLines(lines[1..]);
      assert '\n' !in lines[0];
    }
  }

  /** Trimming lines that are already trimmed changes nothing. */
  lemma {:induction false} TrimAllKeeps(lines: seq<string>)
    requires forall l :: l in lines ==> IsTrimmed(l)
    ensures TrimAll(lines) == lines
  {
    if lines != [] {
      assert lines[0] in lines;
      assert forall l :: l in lines[1..] ==> l in lines;
      TrimAllKeeps(lines[1..]);
      HeadTail(lines);
    }
  }

  /** The test of `filter(l => l.length > 0)`. */
  function NonBlank(): string -> bool {
    (l: string) => |l| > 0
  }

  /**
   * The bulk-import pipeline of the student and class pages:
   * `text.split('\n').map(l => l.trim()).filter(l => l.length > 0)`.
   */
  function ParseLines(text: string): (r: seq<string>)
    ensures forall l :: l in r ==> l != [] && IsTrimmed(l) && '\n' !in l
  {
    var pieces := Split(text, '\n');
    TrimAllLines(pieces);
    Filter(TrimAll(pieces), NonBlank())
  }

  /** A text of one line gives that line trimmed, or nothing when it is blank. */
  lemma ParseOneLine(a: string)
    requires '\n' !in a
    ensures ParseLines(a) == if Trim(a) == "" then [] else [Trim(a)]
  {
    SplitPrefix(a, "", '\n');
    assert a + "" == a;
    assert Split("", '\n') == [""];
    assert Split(a, '\n') == [a];
    var x := Trim(a);
    assert TrimAll([a]) == [x];
    assert [x][1..] == [];
    assert Filter([x], NonBlank()) == (if NonBlank()(x) then [x] else []) + Filter([], NonBlank());
  }

  /** Splitting on line breaks: the first line, then the lines of the rest. */
  lemma SplitFirstLine(a: string, t: string)
    requires '\n' !in a
    ensures Split(a + "\n" + t, '\n') == [a] + Split(t, '\n')
  {
    assert a + "\n" + t == a + ("\n" + t);
    SplitPrefix(a, "\n" + t, '\n');
    assert ("\n" + t)[1..] == t;
    assert Split("\n" + t, '\n') == [""] + Split(t, '\n');
    assert a + "" == a;
  }

  /** The first line kept or dropped on its own, then the rest filtered. */
  lemma FilterFirstLine(x: string, rest: seq<string>)
    ensures Filter([x] + rest, NonBlank()) == (if x == "" then [] else [x]) + Filter(rest, NonBlank())
  {
    FilterConcat([x], rest, NonBlank());
    assert [x][1..] == [];
  }

  /**
   * Reading a text line by line: its first line, trimmed, unless it is blank, followed by
   * the lines of the rest.
   */
  lemma ParseFirstLine(a: string, t: string)
    requires '\n' !in a
    ensures ParseLines(a + "\n" + t) == (if Trim(a) == "" then [] else [Trim(a)]) + ParseLines(t)
  {
    SplitFirstLine(a, t);
    var rest := Split(t, '\n');
    TrimAllCons(a, rest);
    FilterFirstLine(Trim(a), TrimAll(rest));
  }

  /** Non-empty, trimmed, single-line names written one per line are read back exactly. */
  lemma ParseLinesJoin(names: seq<string>)
    requires forall l :: l in names ==> l != [] && IsTrimmed(l) && '\n' !in l
    ensures ParseLines(Join(names, '\n')) == names
  {
    if names == [] {
      assert Split("", '\n') == [""];
      assert TrimAll([""]) == [""];
    } else {
      SplitJoin(names, '\n');
      TrimAllKeeps(names);
      FilterKeepsAll(names, NonBlank());
    }
  }

  predicate IsDigit(c: char) { '0' <= c <= '9' }

  predicate AllDigits(s: string) { forall i :: 0 <= i < |s| ==> IsDigit(s[i]) }

  function DigitChar(d: nat): (c: char)
    requires d < 10
    ensures IsDigit(c) && c as int - '0' as int == d
  {
    ('0' as int + d) as char
  }

  /** The number a string of decimal digits denotes. */
  function DecimalValue(s: string): nat
    requires AllDigits(s)
  {
    if s == [] then 0 else DecimalValue(s[..|s| - 1]) * 10 + (s[|s| - 1] as int - '0' as int)
  }

  /** `Number.prototype.toString()` on a natural number: its decimal digits, without leading zeros. */
  function NatToString(n: nat): (r: string)
    ensures |r| >= 1 && AllDigits(r) && DecimalValue(r) == n
    ensures n < 10 ==> |r| == 1
    ensures 10 <= n < 100 ==> |r| == 2
  {
    if n < 10 then [DigitChar(n)]
    else
      var r := NatToString(n / 10) + [DigitChar(n % 10)];
      assert r[..|r| - 1] == NatToString(n / 10);
      r
  }

  /** `n.toString().padStart(2, '0')`: at least two digits, and still the number `n`. */
  function PadTwo(n: nat): (r: string)
    ensures |r| >= 2 && AllDigits(r) && DecimalValue(r) == n
    ensures n < 100 ==> |r| == 2
    ensures n < 10 ==> r == "0" + NatToString(n)
    ensures n >= 10 ==> r == NatToString(n)
  {
    var s := NatToString(n);
    if |s| < 2 then
      var r := "0" + s;
      assert r[..1] == "0";
      r
    else s
  }

  /** Distinct numbers get distinct padded strings. */
  lemma PadTwoInjective(m: nat, n: nat)
    requires PadTwo(m) == PadTwo(n)
    ensures m == n
  {
  }
}
