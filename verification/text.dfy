/** The string operations the invite code and the handshake lean on. */
module Text {
  import opened Wrappers

  function CutPrefix<T(==)>(s: seq<T>, prefix: seq<T>): Option<seq<T>> {
    if prefix <= s then Some(s[|prefix|..]) else None
  }

  /** Around the first separator, if there is one. */
  function Cut<T(==)>(s: seq<T>, sep: T): (r: Option<(seq<T>, seq<T>)>)
    ensures r.Some? ==> s == r.value.0 + [sep] + r.value.1 && sep !in r.value.0
    ensures r.None? <==> sep !in s
  {
    if s == [] then None
    else if s[0] == sep then Some(([], s[1..]))
    else
      assert s == [s[0]] + s[1..];
      match Cut(s[1..], sep)
      case None => None
      case Some((a, b)) => Some(([s[0]] + a, b))
  }

  lemma {:induction false} CutAt<T>(a: seq<T>, sep: T, b: seq<T>)
    requires sep !in a
    ensures Cut(a + [sep] + b, sep) == Some((a, b))
  {
    var s := a + [sep] + b;
    if a == [] {
      assert s[1..] == b;
    } else {
      assert a == [a[0]] + a[1..] && sep !in a[1..];
      assert s[1..] == a[1..] + [sep] + b;
      CutAt(a[1..], sep, b);
    }
  }

  /** At most `n` pieces: the last one keeps its separators. */
  function SplitN<T(==)>(s: seq<T>, sep: T, n: nat): (pieces: seq<seq<T>>)
    requires n > 0
    ensures 0 < |pieces| <= n
    decreases n
  {
    if n == 1 then [s]
    else
      match Cut(s, sep)
      case None => [s]
      case Some((a, b)) => [a] + SplitN(b, sep, n - 1)
  }

  lemma SplitNAt<T>(a: seq<T>, sep: T, b: seq<T>, n: nat)
    requires sep !in a && n > 1
    ensures SplitN(a + [sep] + b, sep, n) == [a] + SplitN(b, sep, n - 1)
  {
    CutAt(a, sep, b);
  }

  function Split<T(==)>(s: seq<T>, sep: T): (pieces: seq<seq<T>>)
    ensures |pieces| > 0
    ensures forall piece | piece in pieces :: sep !in piece
    decreases |s|
  {
    match Cut(s, sep)
    case None => [s]
    case Some((a, b)) => [a] + Split(b, sep)
  }

  function Join<T>(parts: seq<seq<T>>, sep: T): seq<T> {
    if parts == [] then []
    else if |parts| == 1 then parts[0]
    else parts[0] + [sep] + Join(parts[1..], sep)
  }

  lemma {:induction false} SplitUndoesJoin<T>(parts: seq<seq<T>>, sep: T)
    requires parts != [] && forall part | part in parts :: sep !in part
    ensures Split(Join(parts, sep), sep) == parts
  {
    if |parts| == 1 {
      assert parts[0] in parts && parts == [parts[0]];
    } else {
      assert parts[0] in parts && forall part | part in parts[1..] :: part in parts;
      CutAt(parts[0], sep, Join(parts[1..], sep));
      SplitUndoesJoin(parts[1..], sep);
      assert parts == [parts[0]] + parts[1..];
    }
  }

  function Total<T>(parts: seq<seq<T>>): nat {
    if parts == [] then 0 else Total(parts[..|parts| - 1]) + |parts[|parts| - 1]|
  }

  // ---------- trimming ----------

  function TrimLeft<T>(s: seq<T>, space: T -> bool): seq<T> {
    if s != [] && space(s[0]) then TrimLeft(s[1..], space) else s
  }

  function TrimRight<T>(s: seq<T>, space: T -> bool): seq<T> {
    if s != [] && space(s[|s| - 1]) then TrimRight(s[..|s| - 1], space) else s
  }

  function Trim<T>(s: seq<T>, space: T -> bool): seq<T> {
    TrimRight(TrimLeft(s, space), space)
  }

  /** No white space at either end. */
  predicate Trimmed<T>(s: seq<T>, space: T -> bool) {
    s != [] ==> !space(s[0]) && !space(s[|s| - 1])
  }

  predicate AllSpace<T>(s: seq<T>, space: T -> bool) {
    forall i | 0 <= i < |s| :: space(s[i])
  }

  /** `s` is `t` with nothing but white space around it. */
  ghost predicate Around<T>(s: seq<T>, a: seq<T>, t: seq<T>, b: seq<T>, space: T -> bool) {
    s == a + t + b && AllSpace(a, space) && AllSpace(b, space)
  }

  lemma {:induction false} TrimLeftTrims<T>(s: seq<T>, space: T -> bool)
    ensures var t := TrimLeft(s, space);
      |t| <= |s| && t == s[|s| - |t|..] && (t != [] ==> !space(t[0])) && AllSpace(s[..|s| - |t|], space)
  {
    if s != [] && space(s[0]) {
      TrimLeftTrims(s[1..], space);
      var t := TrimLeft(s, space);
      assert s[..|s| - |t|] == [s[0]] + s[1..][..|s| - 1 - |t|];
    }
  }

  lemma {:induction false} TrimRightTrims<T>(s: seq<T>, space: T -> bool)
    ensures var t := TrimRight(s, space);
      t <= s && (t != [] ==> !space(t[|t| - 1])) && AllSpace(s[|t|..], space)
  {
    if s != [] && space(s[|s| - 1]) {
      var init := s[..|s| - 1];
      TrimRightTrims(init, space);
      var t := TrimRight(s, space);
      assert s[|t|..] == init[|t|..] + [s[|s| - 1]];
    }
  }

  lemma {:induction false} TrimLeftIs<T>(a: seq<T>, s: seq<T>, space: T -> bool)
    requires AllSpace(a, space) && (s != [] ==> !space(s[0]))
    ensures TrimLeft(a + s, space) == s
  {
    if a == [] {
      assert a + s == s;
    } else {
      assert a[0] in a && (a + s)[1..] == a[1..] + s;
      TrimLeftIs(a[1..], s, space);
    }
  }

  lemma {:induction false} TrimRightIs<T>(s: seq<T>, b: seq<T>, space: T -> bool)
    requires AllSpace(b, space) && (s != [] ==> !space(s[|s| - 1]))
    ensures TrimRight(s + b, space) == s
  {
    if b == [] {
      assert s + b == s;
    } else {
      var n := |b| - 1;
      assert b[n] in b && (s + b)[..|s| + n] == s + b[..n];
      TrimRightIs(s, b[..n], space);
    }
  }

  lemma AroundIsTrimmed<T>(s: seq<T>, a: seq<T>, t: seq<T>, b: seq<T>, space: T -> bool)
    requires Around(s, a, t, b, space) && Trimmed(t, space)
    ensures Trim(s, space) == t
  {
    hide TrimLeft, TrimRight;
    if t == [] {
      assert AllSpace(a + b, space) && s == (a + b) + [];
      TrimLeftIs(a + b, [], space);
      TrimRightIs([], [], space);
      assert t + t == t;
    } else {
      assert s == a + (t + b);
      TrimLeftIs(a, t + b, space);
      TrimRightIs(t, b, space);
    }
  }

  lemma TrimIsAround<T>(s: seq<T>, space: T -> bool) returns (a: seq<T>, b: seq<T>)
    ensures Around(s, a, Trim(s, space), b, space) && Trimmed(Trim(s, space), space)
  {
    hide TrimLeft, TrimRight;
    var left, t := TrimLeft(s, space), Trim(s, space);
    TrimLeftTrims(s, space);
    TrimRightTrims(left, space);
    a, b := s[..|s| - |left|], left[|t|..];
    assert s == a + left && left == t + b && a + left == a + t + b;
  }

  /** Trimming takes the white space off both ends and nothing else: whatever is left
    * is the one part of the original that starts and ends without white space and has
    * only white space around it. */
  lemma TrimIs<T>(s: seq<T>, t: seq<T>, space: T -> bool)
    ensures Trim(s, space) == t <==> Trimmed(t, space) && exists a, b :: Around(s, a, t, b, space)
  {
    hide Trim, Around;
    var a, b := TrimIsAround(s, space);
    if Trimmed(t, space) && exists a, b :: Around(s, a, t, b, space) {
      var c, d :| Around(s, c, t, d, space);
      AroundIsTrimmed(s, c, t, d, space);
    }
  }

  lemma TrimTrims<T>(s: seq<T>, space: T -> bool)
    ensures Trimmed(Trim(s, space), space) && |Trim(s, space)| <= |s|
    ensures forall c | c in Trim(s, space) :: c in s
    ensures Trimmed(s, space) ==> Trim(s, space) == s
  {
    hide Trim;
    var a, b := TrimIsAround(s, space);
    if Trimmed(s, space) {
      assert s == [] + s + [];
      AroundIsTrimmed(s, [], s, [], space);
    }
  }

  // ---------- decimal numbers ----------

  predicate IsDigit(c: char) {
    '0' <= c <= '9'
  }

  function Digit(c: char): (d: nat)
    requires IsDigit(c)
    ensures d < 10
  {
    c as int - '0' as int
  }

  function Value(digits: string): nat
    requires forall c | c in digits :: IsDigit(c)
  {
    if digits == [] then 0
    else
      assert digits[|digits| - 1] in digits;
      10 * Value(digits[..|digits| - 1]) + Digit(digits[|digits| - 1])
  }

  const MAX_INT := 0x7FFF_FFFF_FFFF_FFFF

  /** A decimal number, unless it exceeds the machine's integers. */
  function Atoi(digits: string): Option<nat>
    requires forall c | c in digits :: IsDigit(c)
  {
    if Value(digits) > MAX_INT then None else Some(Value(digits))
  }

  function Itoa(n: nat): (s: string)
    ensures s != [] && forall c | c in s :: IsDigit(c)
    ensures Value(s) == n
  {
    var d := "0123456789"[n % 10];
    if n < 10 then
      assert [d][..0] == [];
      [d]
    else
      var s := Itoa(n / 10) + [d];
      assert s[..|s| - 1] == Itoa(n / 10);
      s
  }
}
