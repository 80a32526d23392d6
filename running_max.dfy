/**
  The running-maximum pattern that `upload_file` uses three times: a
  variable starts at a floor value, and a later element replaces the current
  best only when its key is STRICTLY greater. The widest box (floor 0), the
  tallest box (floor 0) and the best catalog entry (floor -1) are all chosen
  this way, so the first element with the maximal key wins every tie.
*/
module RunningMax {
  import opened Wrappers

  /** Position `i` holds a key above `floor` that no key exceeds, and every earlier key is smaller. */
  predicate IsFirstMaxAbove(keys: seq<int>, floor: int, i: nat) {
    && i < |keys|
    && keys[i] > floor
    && (forall j :: 0 <= j < |keys| ==> keys[j] <= keys[i])
    && (forall j :: 0 <= j < i ==> keys[j] < keys[i])
  }

  /** No key rises above `floor`: the running maximum is never replaced. */
  predicate NoneAbove(keys: seq<int>, floor: int) {
    forall j :: 0 <= j < |keys| ==> keys[j] <= floor
  }

  /** The value the running maximum holds once `best` has been chosen. */
  function BestKey(keys: seq<int>, floor: int, best: Option<nat>): int
    requires best.Some? ==> best.value < |keys|
  {
    if best.Some? then keys[best.value] else floor
  }

  /**
    The position a left-to-right scan with a strict `>` update ends on,
    written as the scan itself: the last key replaces the best of the
    prefix only when it is strictly greater.
  */
  function ArgMaxAbove(keys: seq<int>, floor: int): (r: Option<nat>)
    ensures r.None? <==> NoneAbove(keys, floor)
    ensures r.Some? ==> IsFirstMaxAbove(keys, floor, r.value)
    decreases |keys|
  {
    if keys == [] then None
    else
      var n := |keys| - 1;
      var prev := ArgMaxAbove(keys[..n], floor);
      if keys[n] > BestKey(keys, floor, prev) then Some(n) else prev
  }

  /** One more step of the scan: the next key replaces the best only when strictly greater. */
  lemma ArgMaxAboveStep(keys: seq<int>, floor: int, i: nat)
    requires i < |keys|
    ensures var prev := ArgMaxAbove(keys[..i], floor);
      && (prev.Some? ==> prev.value < i)
      && ArgMaxAbove(keys[..i + 1], floor) ==
           if keys[i] > BestKey(keys, floor, prev) then Some(i) else prev
  {
    assert keys[..i + 1][..i] == keys[..i];
  }

  /** The scan's answer is the only first maximum: the tie rule determines it. */
  lemma ArgMaxAboveUnique(keys: seq<int>, floor: int, i: nat)
    requires IsFirstMaxAbove(keys, floor, i)
    ensures ArgMaxAbove(keys, floor) == Some(i)
  {
  }

  /** The element at an optional position. */
  function Pick<T>(s: seq<T>, at: Option<nat>): (r: Option<T>)
    requires at.Some? ==> at.value < |s|
    ensures r.Some? <==> at.Some?
  {
    if at.Some? then Some(s[at.value]) else None
  }
}
