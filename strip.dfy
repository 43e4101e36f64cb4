/** Stripping whitespace from both ends of a sequence (`str.strip()` and
    `bytes.strip()`), for any notion of whitespace. */
module Strip {

  /** The number of leading whitespace elements. */
  function StripStart<T>(s: seq<T>, ws: T -> bool): (a: nat)
    ensures a <= |s|
    ensures forall i :: 0 <= i < a ==> ws(s[i])
    ensures a < |s| ==> !ws(s[a])
    decreases |s|
  {
    if s != [] && ws(s[0]) then 1 + StripStart(s[1..], ws) else 0
  }

  /** The end of the text once trailing whitespace after position `a` is cut. */
  function StripEnd<T>(s: seq<T>, ws: T -> bool, a: nat): (b: nat)
    requires a <= |s|
    ensures a <= b <= |s|
    ensures forall i :: b <= i < |s| ==> ws(s[i])
    ensures b > a ==> !ws(s[b - 1])
    decreases |s|
  {
    if |s| > a && ws(s[|s| - 1]) then StripEnd(s[..|s| - 1], ws, a) else |s|
  }

  /** The sequence without its leading and trailing whitespace. */
  function Strip<T>(s: seq<T>, ws: T -> bool): (r: seq<T>)
    ensures |r| <= |s|
    ensures r != [] ==> !ws(r[0]) && !ws(r[|r| - 1])
    ensures forall x :: x in s && !ws(x) ==> x in r
    ensures exists a, b ::
      (&& 0 <= a <= b <= |s| && r == s[a..b]
       && (forall i :: 0 <= i < a ==> ws(s[i]))
       && (forall i :: b <= i < |s| ==> ws(s[i])))
  {
    var a := StripStart(s, ws);
    var b := StripEnd(s, ws, a);
    assert forall i :: 0 <= i < |s| && !ws(s[i]) ==> a <= i < b && s[i] == s[a..b][i - a];
    s[a..b]
  }

  /** Stripping twice is stripping once. */
  lemma StripIdempotent<T>(s: seq<T>, ws: T -> bool)
    ensures Strip(Strip(s, ws), ws) == Strip(s, ws)
  {
    var r := Strip(s, ws);
    if r != [] {
      assert StripStart(r, ws) == 0;
      assert StripEnd(r, ws, 0) == |r|;
    }
  }

  /** A sequence with no whitespace at either end is its own stripped form. */
  lemma StripNoop<T>(s: seq<T>, ws: T -> bool)
    requires s != [] ==> !ws(s[0]) && !ws(s[|s| - 1])
    ensures Strip(s, ws) == s
  {
    if s != [] {
      assert StripStart(s, ws) == 0;
      assert StripEnd(s, ws, 0) == |s|;
    }
  }

  /** Stripping a sequence with non-whitespace ends and one trailing whitespace
      element removes just that element. */
  lemma StripTrailing<T>(s: seq<T>, ws: T -> bool, w: T)
    requires s != [] && !ws(s[0]) && !ws(s[|s| - 1]) && ws(w)
    ensures Strip(s + [w], ws) == s
  {
    var t := s + [w];
    assert StripStart(t, ws) == 0;
    assert t[..|t| - 1] == s;
    assert StripEnd(s, ws, 0) == |s|;
    assert StripEnd(t, ws, 0) == |s|;
  }
}
