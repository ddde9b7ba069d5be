/** Datatypes shared by every component of the model. */
module Common {

  datatype Option<+T> = None | Some(value: T)

  /** A value, or the error the source raises instead of returning one. */
  datatype Result<+T, +E> = Ok(value: T) | Err(error: E)

  function Min(a: int, b: int): int { if a < b then a else b }

  function Max(a: int, b: int): int { if a < b then b else a }

  /** What a deque bounded to `n` entries keeps. */
  function LastOf<T>(xs: seq<T>, n: nat): seq<T> {
    if |xs| <= n then xs else xs[|xs| - n..]
  }

  lemma LastOfMeans<T>(xs: seq<T>, n: nat)
    ensures var r := LastOf(xs, n);
            |r| == Min(n, |xs|) && forall k :: 0 <= k < |r| ==> r[k] == xs[|xs| - |r| + k]
  {
  }

  lemma LastOfGrows<T>(xs: seq<T>, x: T, n: nat)
    requires n >= 1
    ensures LastOf(LastOf(xs, n) + [x], n) == LastOf(xs + [x], n)
  {
  }

  lemma Witness<T>(s: set<T>) returns (x: T)
    requires s != {}
    ensures x in s
  {
    x :| x in s;
  }

  ghost function Pick<T>(s: set<T>): (x: T)
    requires s != {}
    ensures x in s
  {
    var x :| x in s;
    x
  }

  lemma {:induction false} SubsetIsSmaller<T>(a: set<T>, b: set<T>)
    requires a <= b
    ensures |a| <= |b|
    decreases a
  {
    if a == {} {
    } else {
      var x := Pick(a);
      SubsetIsSmaller(a - {x}, b - {x});
    }
  }

  lemma SubsetOfSameSize<T>(a: set<T>, b: set<T>)
    requires a <= b && |a| == |b|
    ensures a == b
  {
    assert b == a + (b - a);
  }

  predicate IsSpace(c: char) { c == ' ' || c == '\t' || c == '\n' || c == '\r' }

  lemma WhichSpaces(c: char)
    ensures IsSpace(c) <==> c in " \t\n\r"
  {
  }

  function StripLeft(s: string): string {
    if s != [] && IsSpace(s[0]) then StripLeft(s[1..]) else s
  }

  function StripRight(s: string): string {
    if s != [] && IsSpace(s[|s| - 1]) then StripRight(s[..|s| - 1]) else s
  }

  function Strip(s: string): string { StripRight(StripLeft(s)) }

  predicate Blank(s: string) { Strip(s) == [] }

  lemma {:induction false} LeftStripped(s: string) returns (i: nat)
    ensures i <= |s| && StripLeft(s) == s[i..] && (forall k :: 0 <= k < i ==> IsSpace(s[k]))
    ensures StripLeft(s) == [] || !IsSpace(StripLeft(s)[0])
  {
    if s != [] && IsSpace(s[0]) {
      var j := LeftStripped(s[1..]);
      i := j + 1;
    } else {
      i := 0;
    }
  }

  lemma {:induction false} RightStripped(s: string) returns (i: nat)
    ensures i <= |s| && StripRight(s) == s[..i] && (forall k :: i <= k < |s| ==> IsSpace(s[k]))
    ensures i == 0 || !IsSpace(s[i - 1])
  {
    if s != [] && IsSpace(s[|s| - 1]) {
      i := RightStripped(s[..|s| - 1]);
    } else {
      i := |s|;
    }
  }

  /** r is s without the spaces at its ends. */
  ghost predicate IsStripped(s: string, r: string, i: nat, j: nat) {
    && i <= j <= |s| && r == s[i..j]
    && (forall k :: 0 <= k < i || j <= k < |s| ==> IsSpace(s[k]))
    && (r != [] ==> !IsSpace(r[0]) && !IsSpace(r[|r| - 1]))
  }

  lemma StripMeans(s: string)
    ensures exists i, j :: IsStripped(s, Strip(s), i, j)
    ensures Blank(s) <==> forall k :: 0 <= k < |s| ==> IsSpace(s[k])
  {
    var i := LeftStripped(s);
    var left := StripLeft(s);
    var n := RightStripped(left);
    assert IsStripped(s, Strip(s), i, i + n);
  }

  lemma ProductsFollow(a: int, b: int, c: nat)
    requires a <= b
    ensures a * c <= b * c
    ensures (a + 1) * c == a * c + c
  {
  }

  lemma DivisionRest(n: int, d: nat)
    requires d >= 1
    ensures n == n / d * d + n % d && 0 <= n % d < d
  {
  }

  /** Quotient and remainder are unique. */
  lemma RemainderIs(n: int, d: nat, q: int, r: nat)
    requires d >= 1 && n == q * d + r && r < d
    ensures n / d == q && n % d == r
  {
    DivisionRest(n, d);
    if n / d > q {
      ProductsFollow(q, q, d);
      ProductsFollow(q + 1, n / d, d);
    } else if n / d < q {
      ProductsFollow(n / d, n / d, d);
      ProductsFollow(n / d + 1, q, d);
    }
  }

  lemma NonNegative(a: real, b: real)
    requires a >= 0.0 && b >= 0.0
    ensures a * b >= 0.0
  {
  }

  lemma Positive(a: real, b: real)
    requires a > 0.0 && b > 0.0
    ensures a * b > 0.0
  {
  }
}
