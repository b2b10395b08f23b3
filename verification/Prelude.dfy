/** Small shared vocabulary: the null that Python and SQL use, and the string
    primitives several of the modelled files call. */
module Prelude {

  datatype Option<+T> = None | Some(value: T)

  /** `m.get(key)` */
  function Found<K, V>(m: map<K, V>, key: K): Option<V> {
    if key in m then Some(m[key]) else None
  }

  function Min(a: int, b: int): int {
    if a < b then a else b
  }

  function Last<T>(s: seq<T>): T
    requires s != []
  {
    s[|s| - 1]
  }

  function Front<T>(s: seq<T>): seq<T>
    requires s != []
  {
    s[..|s| - 1]
  }

  /** The code points Python's `str.isspace` accepts. */
  predicate IsSpace(c: char) {
    || '\U{0009}' <= c <= '\U{000D}'
    || '\U{001C}' <= c <= '\U{0020}'
    || c == '\U{0085}' || c == '\U{00A0}' || c == '\U{1680}'
    || '\U{2000}' <= c <= '\U{200A}'
    || c == '\U{2028}' || c == '\U{2029}' || c == '\U{202F}' || c == '\U{205F}' || c == '\U{3000}'
  }

  /** Python's `str.strip` with no argument. */
  function Strip(s: string): string {
    StripRight(StripLeft(s))
  }

  function StripLeft(s: string): string {
    if s != "" && IsSpace(s[0]) then StripLeft(s[1..]) else s
  }

  function StripRight(s: string): string {
    if s != "" && IsSpace(s[|s| - 1]) then StripRight(s[..|s| - 1]) else s
  }

  predicate AllSpace(s: string) {
    forall i :: 0 <= i < |s| ==> IsSpace(s[i])
  }

  /** No space at either end. */
  predicate IsTrimmed(s: string) {
    s != "" ==> !IsSpace(s[0]) && !IsSpace(s[|s| - 1])
  }

  lemma {:induction false} StripLeftDrops(before: string, rest: string)
    requires AllSpace(before) && (rest != "" ==> !IsSpace(rest[0]))
    ensures StripLeft(before + rest) == rest
  {
    if before == "" {
      assert before + rest == rest;
    } else {
      assert (before + rest)[1..] == before[1..] + rest;
      StripLeftDrops(before[1..], rest);
    }
  }

  lemma {:induction false} StripRightDrops(rest: string, after: string)
    requires AllSpace(after) && (rest != "" ==> !IsSpace(rest[|rest| - 1]))
    ensures StripRight(rest + after) == rest
  {
    if after == "" {
      assert rest + after == rest;
    } else {
      assert (rest + after)[..|rest + after| - 1] == rest + after[..|after| - 1];
      StripRightDrops(rest, after[..|after| - 1]);
    }
  }

  /** What is stripped is the space at both ends, and nothing else. */
  lemma StripDropsTheEnds(before: string, middle: string, after: string)
    requires AllSpace(before) && AllSpace(after) && IsTrimmed(middle)
    ensures Strip(before + middle + after) == middle
  {
    if middle == "" {
      assert before + middle + after == (before + after) + "";
      StripLeftDrops(before + after, "");
    } else {
      assert before + middle + after == before + (middle + after);
      StripLeftDrops(before, middle + after);
      StripRightDrops(middle, after);
    }
  }

  lemma {:induction false} StripLeftLeaves(s: string) returns (before: string)
    ensures s == before + StripLeft(s) && AllSpace(before) && (StripLeft(s) != "" ==> !IsSpace(StripLeft(s)[0]))
  {
    before := "";
    if s != "" && IsSpace(s[0]) {
      var rest := StripLeftLeaves(s[1..]);
      before := [s[0]] + rest;
    }
  }

  lemma {:induction false} StripRightLeaves(s: string) returns (after: string)
    ensures s == StripRight(s) + after && AllSpace(after) && (StripRight(s) != "" ==> !IsSpace(StripRight(s)[|StripRight(s)| - 1]))
  {
    after := "";
    if s != "" && IsSpace(s[|s| - 1]) {
      var rest := StripRightLeaves(s[..|s| - 1]);
      after := rest + [s[|s| - 1]];
    }
  }

  /** Every text is what `strip` leaves of it, with space before and after. */
  lemma StripLeavesTheMiddle(s: string) returns (before: string, after: string)
    ensures s == before + Strip(s) + after && AllSpace(before) && AllSpace(after) && IsTrimmed(Strip(s))
  {
    before := StripLeftLeaves(s);
    after := StripRightLeaves(StripLeft(s));
    assert Strip(s) != "" ==> Strip(s)[0] == StripLeft(s)[0];
  }
}
