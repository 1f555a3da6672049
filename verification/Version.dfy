/** Version strings of four parts: printing, parsing and comparing. Integers have 64 bits. */
module Version {
  import opened Basics

  const MIN_INT: int := -0x8000_0000_0000_0000
  const MAX_INT: int := 0x7FFF_FFFF_FFFF_FFFF

  type Vrmf = v: seq<int> | |v| == 4 witness [0, 0, 0, 0]

  datatype Error = PartCount(count: nat) | Empty(part: nat) | NonNumeric(part: nat) | Negative(part: nat) | ZeroVersion

  datatype Result<+T> = Ok(value: T) | Err(error: Error)

  // ---- Decimal numbers ----

  function Digit(d: int): char
    requires 0 <= d < 10
  {
    '0' + d as char
  }

  predicate IsDigit(c: char) {
    '0' <= c <= '9'
  }

  function DigitValue(c: char): (d: nat)
    requires IsDigit(c)
  {
    c as int - '0' as int
  }

  predicate IsDigits(s: string) {
    s != "" && forall i :: 0 <= i < |s| ==> IsDigit(s[i])
  }

  function Value(s: string): nat
    requires IsDigits(s)
  {
    (if |s| == 1 then 0 else 10 * Value(s[..|s| - 1])) + DigitValue(s[|s| - 1])
  }

  function Natural(n: nat): string {
    if n < 10 then [Digit(n)] else Natural(n / 10) + [Digit(n % 10)]
  }

  /** The verb %d. */
  function Decimal(n: int): string {
    if n < 0 then "-" + Natural(-n) else Natural(n)
  }

  /** `strconv.Atoi`: an optional sign, digits, and a value of 64 bits. */
  function Atoi(s: string): Option<int> {
    var signed := s != "" && (s[0] == '-' || s[0] == '+');
    var digits := if signed then s[1..] else s;
    if !IsDigits(digits) then None
    else
      var value: int := Value(digits);
      var n := if signed && s[0] == '-' then -value else value;
      if MIN_INT <= n <= MAX_INT then Some(n) else None
  }

  lemma {:induction false} ValueOfNatural(n: nat)
    ensures IsDigits(Natural(n)) && Value(Natural(n)) == n
  {
    if n < 10 {
      assert [Digit(n)][..0] == "";
    } else {
      ValueOfNatural(n / 10);
      Front(Natural(n / 10), Digit(n % 10));
    }
  }

  /** Ten digits, the last one counting least. */
  lemma NumbersAreDecimal()
    ensures Natural(9) == "9" && Natural(10) == "10" && Natural(123) == "123" && Value("907") == 907
  {
    assert Natural(1) == "1" && Natural(12) == "12";
    assert "907"[..2] == "90" && "90"[..1] == "9";
  }

  lemma AtoiOfDigits(s: string)
    requires IsDigits(s)
    ensures Value(s) <= MAX_INT ==> Atoi(s) == Some(Value(s))
    ensures Value(s) <= -MIN_INT ==> Atoi("-" + s) == Some(-(Value(s) as int))
    ensures '.' !in s && '.' !in "-" + s
  {
    assert IsDigit(s[0]);
    assert ("-" + s)[1..] == s;
  }

  lemma AtoiOfDecimal(n: int)
    requires MIN_INT <= n <= MAX_INT
    ensures Atoi(Decimal(n)) == Some(n) && '.' !in Decimal(n) && Decimal(n) != ""
  {
    var m: nat := if n < 0 then -n else n;
    ValueOfNatural(m);
    AtoiOfDigits(Natural(m));
  }

  // ---- Printing and parsing ----

  function Dotted(a: string, rest: string): string {
    a + "." + rest
  }

  /** The format "%d.%d.%d.%d". */
  function ToString(v: Vrmf): string {
    Dotted(Decimal(v[0]), Dotted(Decimal(v[1]), Dotted(Decimal(v[2]), Decimal(v[3]))))
  }

  /** `strings.Split(s, ".")`. */
  function Split(s: string): (r: seq<string>)
    ensures |r| >= 1
  {
    if s == "" then [""]
    else if s[0] == '.' then [""] + Split(s[1..])
    else
      var r := Split(s[1..]);
      [[s[0]] + r[0]] + r[1..]
  }

  /** The number of one part, or what is wrong with it. */
  function PartOf(i: nat, value: string): Result<int> {
    if value == "" then Err(Empty(i))
    else match Atoi(value)
      case None => Err(NonNumeric(i))
      case Some(n) => if n < 0 then Err(Negative(i)) else if i == 0 && n == 0 then Err(ZeroVersion) else Ok(n)
  }

  function FirstError(a: Result<int>, b: Result<int>, c: Result<int>, d: Result<int>): Result<Vrmf> {
    if a.Err? then Err(a.error)
    else if b.Err? then Err(b.error)
    else if c.Err? then Err(c.error)
    else if d.Err? then Err(d.error)
    else
      var v: Vrmf := [a.value, b.value, c.value, d.value];
      Ok(v)
  }

  /** The four numbers, or the error of the first part that is wrong. */
  function Parsed(s: string): Result<Vrmf> {
    var parts := Split(s);
    if |parts| != 4 then Err(PartCount(|parts|))
    else FirstError(PartOf(0, parts[0]), PartOf(1, parts[1]), PartOf(2, parts[2]), PartOf(3, parts[3]))
  }

  lemma FirstFailure(s: string, i: nat, e: Error)
    requires i < |Split(s)| == 4 && PartOf(i, Split(s)[i]) == Err(e)
    requires forall j :: 0 <= j < i ==> PartOf(j, Split(s)[j]).Ok?
    ensures Parsed(s) == Err(e)
  {
    assert i == 0 || i == 1 || i == 2 || i == 3;
  }

  lemma NoFailure(s: string, v: Vrmf)
    requires |Split(s)| == 4 && forall j :: 0 <= j < 4 ==> PartOf(j, Split(s)[j]) == Ok(v[j])
    ensures Parsed(s) == Ok(v)
  {
    assert v == [v[0], v[1], v[2], v[3]];
  }

  method ParseVRMF(s: string) returns (r: Result<Vrmf>)
    ensures r == Parsed(s)
  {
    var versionParts := Split(s);
    if |versionParts| != 4 {
      return Err(PartCount(|versionParts|));
    }
    var parsed: Vrmf := [0, 0, 0, 0];
    for i := 0 to 4
      invariant forall j :: 0 <= j < i ==> PartOf(j, versionParts[j]) == Ok(parsed[j])
    {
      var value := versionParts[i];
      if value == "" {
        FirstFailure(s, i, Empty(i));
        return Err(Empty(i));
      }
      var val := Atoi(value);
      if val.None? {
        FirstFailure(s, i, NonNumeric(i));
        return Err(NonNumeric(i));
      }
      if val.value < 0 {
        FirstFailure(s, i, Negative(i));
        return Err(Negative(i));
      }
      if i == 0 && val.value == 0 {
        FirstFailure(s, i, ZeroVersion);
        return Err(ZeroVersion);
      }
      parsed := parsed[i := val.value];
    }
    NoFailure(s, parsed);
    return Ok(parsed);
  }

  /** Everything that is accepted is a version: no part is negative and the first is positive. */
  lemma AcceptedIsVersion(s: string, v: Vrmf)
    requires Parsed(s) == Ok(v)
    ensures IsVersion(v)
  {
  }

  predicate IsVersion(v: Vrmf) {
    1 <= v[0] <= MAX_INT && 0 <= v[1] <= MAX_INT && 0 <= v[2] <= MAX_INT && 0 <= v[3] <= MAX_INT
  }

  lemma {:induction false} SplitAt(a: string, rest: string)
    requires '.' !in a
    ensures Split(Dotted(a, rest)) == [a] + Split(rest)
  {
    var s := Dotted(a, rest);
    if a == "" {
      assert s[0] == '.' && s[1..] == rest;
    } else {
      SplitAt(a[1..], rest);
      assert s[1..] == Dotted(a[1..], rest);
      assert [a[0]] + a[1..] == a;
      assert ([a[1..]] + Split(rest))[1..] == Split(rest);
    }
  }

  lemma {:induction false} SplitWhole(a: string)
    requires '.' !in a
    ensures Split(a) == [a]
  {
    if a == "" {
    } else {
      SplitWhole(a[1..]);
      assert [a[0]] + a[1..] == a;
    }
  }

  lemma SplitFour(a: string, b: string, c: string, d: string)
    requires '.' !in a && '.' !in b && '.' !in c && '.' !in d
    ensures Split(Dotted(a, Dotted(b, Dotted(c, d)))) == [a, b, c, d]
  {
    var cd := Dotted(c, d);
    var bcd := Dotted(b, cd);
    assert Split(cd) == [c, d] by {
      SplitWhole(d);
      SplitAt(c, d);
    }
    assert Split(bcd) == [b, c, d] by {
      SplitAt(b, cd);
    }
    SplitAt(a, bcd);
  }

  lemma PartOfDecimal(i: nat, n: int)
    requires MIN_INT <= n <= MAX_INT
    ensures '.' !in Decimal(n)
    ensures PartOf(i, Decimal(n)) == Ok(n) <==> if i == 0 then n > 0 else n >= 0
  {
    AtoiOfDecimal(n);
  }

  lemma AllOk(v: Vrmf, a: Result<int>, b: Result<int>, c: Result<int>, d: Result<int>)
    ensures FirstError(a, b, c, d) == Ok(v) <==> a == Ok(v[0]) && b == Ok(v[1]) && c == Ok(v[2]) && d == Ok(v[3])
  {
    assert v == [v[0], v[1], v[2], v[3]];
  }

  lemma ParsedOfFour(a: string, b: string, c: string, d: string)
    requires '.' !in a && '.' !in b && '.' !in c && '.' !in d
    ensures Parsed(Dotted(a, Dotted(b, Dotted(c, d))))
            == FirstError(PartOf(0, a), PartOf(1, b), PartOf(2, c), PartOf(3, d))
  {
    SplitFour(a, b, c, d);
  }

  /** What a part of digits stands for, with or without a sign. */
  lemma PartOfDigits(i: nat, s: string)
    requires IsDigits(s)
    ensures PartOf(i, s) == if Value(s) > MAX_INT then Err(NonNumeric(i))
                            else if i == 0 && Value(s) == 0 then Err(ZeroVersion) else Ok(Value(s))
    ensures PartOf(i, "+" + s) == PartOf(i, s)
    ensures 0 < Value(s) <= -MIN_INT ==> PartOf(i, "-" + s) == Err(Negative(i))
  {
    AtoiOfDigits(s);
    assert IsDigit(s[0]);
    assert ("+" + s)[1..] == s && ("-" + s)[1..] == s;
  }

  /** Any other character is an error, and so is nothing at all. */
  lemma PartOfOther(i: nat, s: string, k: nat)
    requires k < |s| && !IsDigit(s[k]) && (k == 0 ==> s[0] != '+' && s[0] != '-')
    ensures PartOf(i, s) == Err(NonNumeric(i)) && PartOf(i, "") == Err(Empty(i))
  {
    if s[0] == '-' || s[0] == '+' {
      assert s[1..][k - 1] == s[k];
    }
  }

  /** Printing and parsing gives a value back exactly when it is a version. */
  lemma RoundTripIff(v: Vrmf)
    requires forall i :: 0 <= i < 4 ==> MIN_INT <= v[i] <= MAX_INT
    ensures Parsed(ToString(v)) == Ok(v) <==> IsVersion(v)
  {
    var a, b, c, d := Decimal(v[0]), Decimal(v[1]), Decimal(v[2]), Decimal(v[3]);
    PartOfDecimal(0, v[0]);
    PartOfDecimal(1, v[1]);
    PartOfDecimal(2, v[2]);
    PartOfDecimal(3, v[3]);
    ParsedOfFour(a, b, c, d);
    AllOk(v, PartOf(0, a), PartOf(1, b), PartOf(2, c), PartOf(3, d));
  }

  // ---- Order ----

  /** `v` is before `w` at the first part where they differ. */
  predicate Less(v: Vrmf, w: Vrmf) {
    exists k :: 0 <= k < 4 && LessAt(v, w, k)
  }

  predicate LessAt(v: Vrmf, w: Vrmf, k: int)
    requires 0 <= k < 4
  {
    v[k] < w[k] && forall j :: 0 <= j < k ==> v[j] == w[j]
  }

  function Comparison(v: Vrmf, w: Vrmf): int {
    if Less(v, w) then -1 else if v == w then 0 else 1
  }

  method Compare(v: Vrmf, to: Vrmf) returns (r: int)
    ensures r == Comparison(v, to)
  {
    for i := 0 to 4
      invariant forall j :: 0 <= j < i ==> v[j] == to[j]
    {
      if v[i] < to[i] {
        assert LessAt(v, to, i);
        return -1;
      }
      if v[i] > to[i] {
        assert forall k :: 0 <= k < 4 && LessAt(v, to, k) ==> k <= i;
        return 1;
      }
    }
    return 0;
  }

  lemma FirstDifference(v: Vrmf, w: Vrmf) returns (k: nat)
    ensures k <= 4 && (forall j :: 0 <= j < k ==> v[j] == w[j]) && (k < 4 ==> v[k] != w[k]) && (k == 4 ==> v == w)
  {
    k := 0;
    while k < 4 && v[k] == w[k]
      invariant k <= 4 && forall j :: 0 <= j < k ==> v[j] == w[j]
    {
      k := k + 1;
    }
  }

  /** Comparing is a total order: equal only on equal versions, and the other way round with the other sign. */
  lemma ComparisonIsTotal(v: Vrmf, w: Vrmf)
    ensures Comparison(v, w) == 0 <==> v == w
    ensures Comparison(w, v) == -Comparison(v, w)
    ensures Comparison(v, w) == 1 <==> Less(w, v)
  {
    var k := FirstDifference(v, w);
    if k < 4 {
      assert if v[k] < w[k] then LessAt(v, w, k) else LessAt(w, v, k);
      assert forall j :: 0 <= j < 4 && (LessAt(v, w, j) || LessAt(w, v, j)) ==> j == k;
    }
  }

  /** The first part at which two versions differ decides, whatever follows it. */
  lemma FirstPartDecides(a: int, b: int, c: int, d: int, v: Vrmf)
    ensures a < v[0] ==> Comparison([a, b, c, d], v) == -1
    ensures a == v[0] && b < v[1] ==> Comparison([a, b, c, d], v) == -1
    ensures a == v[0] && b == v[1] && c < v[2] ==> Comparison([a, b, c, d], v) == -1
    ensures a == v[0] && b == v[1] && c == v[2] && d < v[3] ==> Comparison([a, b, c, d], v) == -1
  {
    var u: Vrmf := [a, b, c, d];
    if a < v[0] {
      assert LessAt(u, v, 0);
    } else if a == v[0] && b < v[1] {
      assert LessAt(u, v, 1);
    } else if a == v[0] && b == v[1] && c < v[2] {
      assert LessAt(u, v, 2);
    } else if a == v[0] && b == v[1] && c == v[2] && d < v[3] {
      assert LessAt(u, v, 3);
    }
  }

  lemma ComparisonIsTransitive(u: Vrmf, v: Vrmf, w: Vrmf)
    requires Comparison(u, v) <= 0 && Comparison(v, w) <= 0
    ensures Comparison(u, w) <= 0
    ensures Comparison(u, v) < 0 || Comparison(v, w) < 0 ==> Comparison(u, w) < 0
  {
    if Less(u, v) && Less(v, w) {
      var i :| 0 <= i < 4 && LessAt(u, v, i);
      var j :| 0 <= j < 4 && LessAt(v, w, j);
      assert LessAt(u, w, if i < j then i else j);
    }
  }
}
