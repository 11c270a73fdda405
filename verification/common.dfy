/** Values shared by every part of the model: optional values, the browser's
    `File` handle, a percentage position and a few sequence helpers. */
module Common {

  /** `T | null` / `T | undefined` in the application. */
  datatype Option<+T> = None | Some(value: T) {
    /** The value, or `default` when there is none (a JavaScript default
        parameter or `x ?? default`). */
    function GetOr(default: T): T
    {
      match this
      case Some(v) => v
      case None => default
    }
  }

  /** A browser `File`: only its name and MIME type are ever read; `id`
      tells apart two files that share both. */
  datatype FileRef = FileRef(id: nat, name: string, mimeType: string)

  /** A watermark position, in percent of the surface width and height. */
  datatype Pos = Pos(x: real, y: real)

  /** The centre position every image starts at. */
  const Centre := Pos(50.0, 50.0)

  /** The first `n` elements of `s`, or all of `s` when it is shorter. */
  function Take<T>(s: seq<T>, n: nat): (r: seq<T>)
    ensures |r| == if n < |s| then n else |s|
    ensures r <= s
  {
    if n < |s| then s[..n] else s
  }

  /** Number of occurrences of `x` in `s`. */
  function Count<T(==)>(s: seq<T>, x: T): nat
  {
    if |s| == 0 then 0 else (if s[0] == x then 1 else 0) + Count(s[1..], x)
  }

  lemma {:induction false} CountAppend<T>(a: seq<T>, b: seq<T>, x: T)
    ensures Count(a + b, x) == Count(a, x) + Count(b, x)
  {
    if |a| == 0 {
      assert a + b == b;
    } else {
      assert (a + b)[1..] == a[1..] + b;
      CountAppend(a[1..], b, x);
    }
  }

  lemma CountAbsent<T>(s: seq<T>, x: T)
    requires x !in s
    ensures Count(s, x) == 0
  {
  }

  lemma CountSingle<T>(y: T, x: T)
    ensures Count([y], x) == if y == x then 1 else 0
  {
    assert [y][1..] == [];
  }

  predicate HasPrefix(s: string, p: string)
  {
    |p| <= |s| && s[..|p|] == p
  }

  /** Concatenation regroups; stated once so that long proofs can name the
      step. */
  lemma ConcatAssoc<T>(a: seq<T>, b: seq<T>, c: seq<T>)
    ensures a + (b + c) == (a + b) + c
  {
  }
}
