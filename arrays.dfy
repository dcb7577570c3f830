/**
 * util/Array.java: array helpers over String[] and Object[]. Each Java
 * overload pair is one generic method here; `T(0)` stands for Java's
 * null-filled `new T[n]`.
 */
module Arrays {
  import opened Wrappers
  import opened Throwables
  import opened JavaInt

  /**
   * System.arraycopy for in-range arguments: the copied block is read
   * before any write, as Java specifies, so src and dst may be the same array.
   */
  method ArrayCopy<T>(src: array<T>, srcPos: nat, dst: array<T>, dstPos: nat, length: nat)
    requires srcPos + length <= src.Length && dstPos + length <= dst.Length
    modifies dst
    ensures dst[..] == old(dst[..dstPos]) + old(src[srcPos..srcPos + length]) + old(dst[dstPos + length..])
  {
    var block := src[srcPos..srcPos + length];
    var i := 0;
    while i < length
      invariant 0 <= i <= length
      invariant dst[..] == old(dst[..dstPos]) + block[..i] + old(dst[dstPos + i..])
    {
      dst[dstPos + i] := block[i];
      i := i + 1;
    }
  }

  /** append(src, x): a new array holding src followed by x. */
  method Append<T(0)>(src: array<T>, x: T) returns (dst: array<T>)
    ensures fresh(dst)
    ensures dst[..] == src[..] + [x]
  {
    dst := new T[src.Length + 1];
    ArrayCopy(src, 0, dst, 0, src.Length);
    dst[src.Length] := x;
  }

  /** prepend(src, x): a new array holding x followed by src. */
  method Prepend<T(0)>(src: array<T>, x: T) returns (dst: array<T>)
    ensures fresh(dst)
    ensures dst[..] == [x] + src[..]
  {
    dst := new T[src.Length + 1];
    ArrayCopy(src, 0, dst, 1, src.Length);
    dst[0] := x;
  }

  /**
   * subArray(src, start, length). The array is allocated before the copy,
   * so a negative length fails first, then any range outside src.
   */
  method SubArray<T(0)>(src: array<T>, start: int, length: int) returns (r: Result<array<T>, Throwable>)
    ensures length < 0 ==> r == Err(NegativeArraySizeException)
    ensures 0 <= length && !(0 <= start && start + length <= src.Length) ==> r == Err(ArrayIndexOutOfBoundsException)
    ensures 0 <= length && 0 <= start && start + length <= src.Length ==>
              r.Ok? && fresh(r.value) && r.value[..] == src[start..start + length]
  {
    if length < 0 {
      return Err(NegativeArraySizeException);
    }
    var dst := new T[length];
    if !(0 <= start && start + length <= src.Length) {
      return Err(ArrayIndexOutOfBoundsException);
    }
    ArrayCopy(src, start, dst, 0, length);
    return Ok(dst);
  }

  /**
   * subArray(src, start): the suffix of src from start. The length
   * `src.length - start` is a Java int, so a start far below zero wraps it
   * to a negative length.
   */
  method SubArrayFrom<T(0)>(src: array<T>, start: int32) returns (r: Result<array<T>, Throwable>)
    requires src.Length <= INT_MAX
    ensures start as int > src.Length ==> r == Err(NegativeArraySizeException)
    ensures src.Length - start as int > INT_MAX ==> r == Err(NegativeArraySizeException)
    ensures start < 0 && src.Length - start as int <= INT_MAX ==> r == Err(ArrayIndexOutOfBoundsException)
    ensures 0 <= start as int <= src.Length ==> r.Ok? && fresh(r.value) && r.value[..] == src[start..]
  {
    var length := Wrap(src.Length - start as int);
    if src.Length - start as int > INT_MAX {
      WrapAboveMax(src.Length - start as int);
    }
    r := SubArray(src, start as int, length as int);
  }

  /** What string concatenation makes of an element: its toString, or "null". */
  function Render(x: Option<string>): string {
    match x
    case None => "null"
    case Some(s) => s
  }

  function RenderAll(xs: seq<Option<string>>): (ss: seq<string>)
    ensures |ss| == |xs| && forall i :: 0 <= i < |xs| ==> ss[i] == Render(xs[i])
  {
    if xs == [] then [] else [Render(xs[0])] + RenderAll(xs[1..])
  }

  /** The strings separated by exactly one bridge each. */
  function JoinSpec(bridge: string, ss: seq<string>): string
    decreases |ss|
  {
    if |ss| == 0 then ""
    else if |ss| == 1 then ss[0]
    else ss[0] + bridge + JoinSpec(bridge, ss[1..])
  }

  /** join(bridge, src), with the loop the source runs. */
  method Join(bridge: string, src: array<Option<string>>) returns (s: string)
    ensures s == JoinSpec(bridge, RenderAll(src[..]))
  {
    if src.Length == 0 {
      return "";
    }
    var temp := Render(src[0]);
    var i := 1;
    while i < src.Length
      invariant 1 <= i <= src.Length
      invariant temp == JoinSpec(bridge, RenderAll(src[..i]))
    {
      JoinSnoc(bridge, RenderAll(src[..i]), Render(src[i]));
      assert RenderAll(src[..i + 1]) == RenderAll(src[..i]) + [Render(src[i])];
      temp := temp + bridge + Render(src[i]);
      i := i + 1;
    }
    assert src[..] == src[..src.Length];
    return temp;
  }

  /** Adding one more string adds one bridge and that string at the end. */
  lemma {:induction false} JoinSnoc(bridge: string, ss: seq<string>, x: string)
    requires |ss| >= 1
    ensures JoinSpec(bridge, ss + [x]) == JoinSpec(bridge, ss) + bridge + x
    decreases |ss|
  {
    if |ss| > 1 {
      JoinSnoc(bridge, ss[1..], x);
      assert (ss + [x])[1..] == ss[1..] + [x];
    } else {
      assert (ss + [x])[1..] == [x];
    }
  }

  function SumOfLengths(ss: seq<string>): nat {
    if ss == [] then 0 else |ss[0]| + SumOfLengths(ss[1..])
  }

  /** n strings contribute their own lengths and n - 1 bridges. */
  lemma {:induction false} JoinLength(bridge: string, ss: seq<string>)
    requires |ss| >= 1
    ensures |JoinSpec(bridge, ss)| == SumOfLengths(ss) + (|ss| - 1) * |bridge|
    decreases |ss|
  {
    if |ss| > 1 {
      JoinLength(bridge, ss[1..]);
    }
  }

  /** Index of the first c in s, or -1. */
  function IndexOf(s: string, c: char): (i: int)
    ensures -1 <= i < |s|
    ensures i == -1 ==> c !in s
    ensures i >= 0 ==> s[i] == c && c !in s[..i]
  {
    if |s| == 0 then -1
    else if s[0] == c then 0
    else var j := IndexOf(s[1..], c); if j < 0 then -1 else j + 1
  }

  /** Cut s at every c. */
  function Split(s: string, c: char): seq<string>
    decreases |s|
  {
    var i := IndexOf(s, c);
    if i < 0 then [s] else [s[..i]] + Split(s[i + 1..], c)
  }

  /** With a one-character bridge that no element contains, splitting undoes the join. */
  lemma {:induction false} JoinSplit(c: char, ss: seq<string>)
    requires |ss| >= 1
    requires forall k :: 0 <= k < |ss| ==> c !in ss[k]
    ensures Split(JoinSpec([c], ss), c) == ss
    decreases |ss|
  {
    var j := JoinSpec([c], ss);
    if |ss| == 1 {
      assert IndexOf(j, c) == -1;
    } else {
      var rest := JoinSpec([c], ss[1..]);
      assert j == ss[0] + [c] + rest;
      IndexAfterPrefix(ss[0], c, rest);
      assert j[..|ss[0]|] == ss[0];
      assert j[|ss[0]| + 1..] == rest;
      JoinSplit(c, ss[1..]);
    }
  }

  lemma {:induction false} IndexAfterPrefix(p: string, c: char, rest: string)
    requires c !in p
    ensures IndexOf(p + [c] + rest, c) == |p|
    decreases |p|
  {
    if |p| > 0 {
      assert (p + [c] + rest)[1..] == p[1..] + [c] + rest;
      IndexAfterPrefix(p[1..], c, rest);
    }
  }
}
