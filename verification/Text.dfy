/** The string operations the controller leans on: splitting, decimal numbers and
    their parsing. Go's `strings` and `strconv` are modelled on ASCII text. */
module Text {

  datatype Option<+T> = None | Some(value: T)

  // ---------------------------------------------------------------- splitting

  /** strings.Split with a one-character separator: never empty, keeps empty parts. */
  function Split(s: string, sep: char): (parts: seq<string>)
    ensures |parts| > 0
  {
    if s == "" then [""]
    else
      var rest := Split(s[1..], sep);
      if s[0] == sep then [""] + rest else [[s[0]] + rest[0]] + rest[1..]
  }

  function Join(parts: seq<string>, sep: char): string
    requires |parts| > 0
  {
    if |parts| == 1 then parts[0] else parts[0] + [sep] + Join(parts[1..], sep)
  }

  ghost predicate Free(parts: seq<string>, sep: char) {
    forall i :: 0 <= i < |parts| ==> sep !in parts[i]
  }

  lemma {:induction false} SplitWhole(s: string, sep: char)
    requires sep !in s
    ensures Split(s, sep) == [s]
  {
    if s != "" {
      SplitWhole(s[1..], sep);
      assert [s[0]] + s[1..] == s;
    }
  }

  lemma {:induction false} SplitHead(a: string, sep: char, rest: string)
    requires sep !in a
    ensures Split(a + [sep] + rest, sep) == [a] + Split(rest, sep)
  {
    var s := a + [sep] + rest;
    if a == "" {
      assert s[1..] == rest;
    } else {
      assert s[1..] == a[1..] + [sep] + rest;
      SplitHead(a[1..], sep, rest);
      assert [s[0]] + a[1..] == a;
    }
  }

  lemma {:induction false} SplitAppend(a: string, sep: char, rest: string)
    ensures Split(a + [sep] + rest, sep) == Split(a, sep) + Split(rest, sep)
  {
    var s := a + [sep] + rest;
    if a == "" {
      assert s[1..] == rest;
    } else {
      assert s[1..] == a[1..] + [sep] + rest;
      SplitAppend(a[1..], sep, rest);
    }
  }

  /** Splitting undoes joining. */
  lemma {:induction false} SplitJoin(parts: seq<string>, sep: char)
    requires |parts| > 0 && Free(parts, sep)
    ensures Split(Join(parts, sep), sep) == parts
  {
    if |parts| == 1 {
      SplitWhole(parts[0], sep);
    } else {
      SplitJoin(parts[1..], sep);
      SplitHead(parts[0], sep, Join(parts[1..], sep));
    }
  }

  /** The parts of a split hold no separator, and no character the text does not hold. */
  lemma {:induction false} SplitParts(s: string, sep: char)
    ensures Free(Split(s, sep), sep)
    ensures forall i, c :: 0 <= i < |Split(s, sep)| && c in Split(s, sep)[i] ==> c in s
    ensures |Split(s, sep)| == 1 <==> sep !in s
    ensures |Split(s, sep)| == 1 ==> Split(s, sep)[0] == s
  {
    if s != "" {
      SplitParts(s[1..], sep);
      assert s == [s[0]] + s[1..];
    }
  }

  /** Joining undoes splitting. */
  lemma {:induction false} JoinSplit(s: string, sep: char)
    ensures Join(Split(s, sep), sep) == s
  {
    if s != "" {
      JoinSplit(s[1..], sep);
      var rest := Split(s[1..], sep);
      var parts := Split(s, sep);
      assert s == [s[0]] + s[1..];
      if s[0] == sep {
        assert parts[1..] == rest;
      } else if |rest| > 1 {
        assert parts[1..] == rest[1..];
      }
    }
  }

  lemma {:induction false} JoinTail(parts: seq<string>, tail: string, sep: char)
    requires |parts| > 0
    ensures Join(parts, sep) + tail == Join(parts[|parts| - 1 := parts[|parts| - 1] + tail], sep)
  {
    if |parts| > 1 {
      var rest, last := parts[1..], |parts| - 1;
      JoinTail(rest, tail, sep);
      assert parts[last := parts[last] + tail][1..] == rest[last - 1 := rest[last - 1] + tail];
      assert parts[0] + [sep] + Join(rest, sep) + tail == parts[0] + [sep] + (Join(rest, sep) + tail);
    }
  }

  /** Text without separators after a text only lengthens its last part. */
  lemma SplitTail(s: string, tail: string, sep: char)
    requires sep !in tail
    ensures var parts := Split(s, sep);
            Split(s + tail, sep) == parts[..|parts| - 1] + [parts[|parts| - 1] + tail]
  {
    var parts := Split(s, sep);
    var last := |parts| - 1;
    SplitParts(s, sep);
    JoinSplit(s, sep);
    JoinTail(parts, tail, sep);
    SplitJoin(parts[last := parts[last] + tail], sep);
    assert parts[last := parts[last] + tail] == parts[..last] + [parts[last] + tail];
  }

  // ---------------------------------------------------------------- white space

  predicate IsSpace(c: char) { c == ' ' || '\t' <= c <= '\r' }

  ghost predicate Spaceless(s: string) { forall c :: c in s ==> !IsSpace(c) }

  function TrimLeft(s: string): string {
    if s != "" && IsSpace(s[0]) then TrimLeft(s[1..]) else s
  }

  function TrimRight(s: string): string {
    if s != "" && IsSpace(s[|s| - 1]) then TrimRight(s[..|s| - 1]) else s
  }

  function TrimSpace(s: string): string { TrimRight(TrimLeft(s)) }

  lemma {:induction false} TrimNothing(s: string)
    requires Spaceless(s)
    ensures TrimSpace(s) == s
  {
    if s != "" {
      assert s[0] in s && s[|s| - 1] in s;
    }
  }

  /** strings.Fields: the maximal runs of non-space characters. */
  function Fields(s: string): seq<string> {
    if s == "" then []
    else if IsSpace(s[0]) then Fields(s[1..])
    else if |s| == 1 || IsSpace(s[1]) then [[s[0]]] + Fields(s[1..])
    else
      var rest := Fields(s[1..]);
      if rest == [] then [s] else [[s[0]] + rest[0]] + rest[1..]
  }

  lemma {:induction false} FieldsHead(a: string, rest: string)
    requires a != "" && Spaceless(a)
    ensures Fields(a + " " + rest) == [a] + Fields(rest)
  {
    var s := a + " " + rest;
    assert s[1..] == a[1..] + " " + rest && a[0] in a;
    if |a| == 1 {
      assert (" " + rest)[1..] == rest;
      assert s[1..] == " " + rest && [s[0]] == a;
      assert Fields(s[1..]) == Fields(rest);
    } else {
      assert a[1] in a;
      FieldsHead(a[1..], rest);
      assert [s[0]] + a[1..] == a;
    }
  }

  lemma {:induction false} FieldsLast(a: string)
    requires a != "" && Spaceless(a)
    ensures Fields(a) == [a]
  {
    assert a[0] in a;
    if |a| > 1 {
      assert a[1] in a;
      FieldsLast(a[1..]);
      assert [a[0]] + a[1..] == a;
    } else {
      assert a[1..] == "" && [a[0]] == a;
    }
  }

  // ---------------------------------------------------------------- letter case

  function LowerChar(c: char): char { if 'A' <= c <= 'Z' then c - 'A' + 'a' else c }

  function ToLower(s: string): (r: string)
    ensures |r| == |s| && forall i :: 0 <= i < |s| ==> r[i] == LowerChar(s[i])
  {
    seq(|s|, i requires 0 <= i < |s| => LowerChar(s[i]))
  }

  // ---------------------------------------------------------------- numbers

  predicate IsDigit(c: char) { '0' <= c <= '9' }

  predicate IsNumber(s: string) { s != "" && forall c :: c in s ==> IsDigit(c) }

  function DigitValue(c: char): nat
    requires IsDigit(c)
  {
    (c - '0') as int
  }

  function DigitChar(d: nat): (c: char)
    requires d < 10
    ensures IsDigit(c) && DigitValue(c) == d
  {
    '0' + d as char
  }

  /** The number a run of decimal digits stands for. */
  function Value(s: string): nat
    requires forall c :: c in s ==> IsDigit(c)
  {
    if s == "" then 0 else 10 * Value(s[..|s| - 1]) + DigitValue(s[|s| - 1])
  }

  /** The `%d` form of a natural number. */
  function Decimal(n: nat): (s: string)
    ensures IsNumber(s) && Value(s) == n
  {
    if n < 10 then
      var s := [DigitChar(n)];
      assert s[..0] == "";
      s
    else
      var s := Decimal(n / 10) + [DigitChar(n % 10)];
      assert s[..|s| - 1] == Decimal(n / 10);
      s
  }

  /** The `%d` form of an integer. */
  function FormatInt(i: int): string { if i < 0 then "-" + Decimal(-i) else Decimal(i) }

  lemma FormatIntInjective(i: int, j: int)
    requires FormatInt(i) == FormatInt(j)
    ensures i == j
  {
    assert forall n: nat :: Decimal(n)[0] in Decimal(n);
    if i < 0 && j < 0 {
      assert FormatInt(i)[1..] == Decimal(-i);
      assert FormatInt(j)[1..] == Decimal(-j);
    }
  }

  const MAX_INT64: int := 0x7fff_ffff_ffff_ffff

  /** strconv.Atoi: an optional sign and decimal digits, within 64 bits. */
  function Atoi(s: string): Option<int> {
    var signed := s != "" && (s[0] == '+' || s[0] == '-');
    var digits := if signed then s[1..] else s;
    if !IsNumber(digits) then None
    else
      var v := if signed && s[0] == '-' then -(Value(digits) as int) else Value(digits);
      if -MAX_INT64 - 1 <= v <= MAX_INT64 then Some(v) else None
  }

  /** Reading back what was printed: exactly what fits in 64 bits, with a plus sign too. */
  lemma AtoiFormat(i: int)
    ensures Atoi(FormatInt(i)) == if -MAX_INT64 - 1 <= i <= MAX_INT64 then Some(i) else None
    ensures 0 <= i <= MAX_INT64 ==> Atoi("+" + FormatInt(i)) == Some(i)
  {
    var digits := Decimal(if i < 0 then -i else i);
    assert digits[0] in digits;
    AtoiSigned(digits);
  }

  lemma AtoiSigned(digits: string)
    requires IsNumber(digits)
    ensures Atoi("-" + digits) == if Value(digits) > MAX_INT64 + 1 then None else Some(0 - Value(digits) as int)
    ensures Atoi("+" + digits) == if Value(digits) > MAX_INT64 then None else Some(Value(digits))
  {
    assert ("-" + digits)[1..] == digits && ("+" + digits)[1..] == digits;
  }

  /** What Atoi accepts is made of digits after at most one leading sign. */
  lemma AtoiShape(s: string)
    requires Atoi(s).Some?
    ensures s != ""
    ensures '/' !in s && '*' !in s && '?' !in s
    ensures Atoi(s).value > 0 ==> '-' !in s
    ensures forall i :: 0 < i < |s| ==> IsDigit(s[i])
  {
    forall i | 0 < i < |s|
      ensures IsDigit(s[i])
    {
      assert s[1..][i - 1] == s[i];
    }
  }
}
