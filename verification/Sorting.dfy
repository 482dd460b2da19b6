/** The part of std::sort the models need. */
module Sorting {

  /** Puts `x` before the first element it is less than. */
  function Insert<T>(x: T, s: seq<T>, less: (T, T) -> bool): (r: seq<T>)
    ensures |r| == |s| + 1
  {
    if s == [] || less(x, s[0]) then [x] + s else [s[0]] + Insert(x, s[1..], less)
  }

  function Sort<T>(s: seq<T>, less: (T, T) -> bool): (r: seq<T>)
    ensures |r| == |s|
  {
    if s == [] then [] else Insert(s[0], Sort(s[1..], less), less)
  }

  lemma {:induction false} InsertHas<T>(x: T, s: seq<T>, less: (T, T) -> bool, y: T)
    ensures y in Insert(x, s, less) <==> y == x || y in s
  {
    if s != [] && !less(x, s[0]) {
      InsertHas(x, s[1..], less, y);
      assert s == [s[0]] + s[1..];
    }
  }

  lemma {:induction false} SortHas<T>(s: seq<T>, less: (T, T) -> bool, y: T)
    ensures y in Sort(s, less) <==> y in s
  {
    if s != [] {
      InsertHas(s[0], Sort(s[1..], less), less, y);
      SortHas(s[1..], less, y);
      assert s == [s[0]] + s[1..];
    }
  }
}
