/**
 * The sequence reasoning behind populate and prune: which tail tracks are
 * appended to the head, which tail positions are removed, and how the work is
 * cut into batches of at most 100 items.
 */
module TrackLists {

  /** A playlist item as the sync reads it: whether it is a local file, and its URI. */
  datatype Track = Track(isLocal: bool, uri: string)

  /** The most items one add or remove request may carry. */
  const BatchLimit: nat := 100

  function Uris(ts: seq<Track>): (r: seq<string>)
    ensures |r| == |ts| && forall i :: 0 <= i < |ts| ==> r[i] == ts[i].uri
  {
    seq(|ts|, i requires 0 <= i < |ts| => ts[i].uri)
  }

  function Min(a: int, b: int): int { if a <= b then a else b }
  function Max(a: int, b: int): int { if a >= b then a else b }

  function Concat<T>(parts: seq<seq<T>>): seq<T>
  {
    if parts == [] then [] else parts[0] + Concat(parts[1..])
  }

  lemma {:induction false} ConcatAppend<T>(a: seq<seq<T>>, b: seq<seq<T>>)
    ensures Concat(a + b) == Concat(a) + Concat(b)
    decreases |a|
  {
    if a == [] {
      assert a + b == b;
    } else {
      assert (a + b)[1..] == a[1..] + b;
      ConcatAppend(a[1..], b);
    }
  }

  // ---------------------------------------------------------------------------
  // populate: the tail tracks missing from the head
  // ---------------------------------------------------------------------------

  /** `toTrackURIs`: the tail's non-local tracks whose URI the head lacks, as URIs, in tail order. */
  function MissingUris(headUris: seq<string>, tail: seq<Track>): (r: seq<string>)
    ensures |r| <= |tail|
    ensures forall u :: u in r <==> u !in headUris && exists i :: 0 <= i < |tail| && !tail[i].isLocal && tail[i].uri == u
    decreases |tail|
  {
    if tail == [] then []
    else
      var rest := MissingUris(headUris, tail[1..]);
      assert forall i :: 1 <= i < |tail| ==> tail[i] == tail[1..][i - 1];
      if !tail[0].isLocal && tail[0].uri !in headUris then [tail[0].uri] + rest else rest
  }

  /** The number of non-local tail tracks with URI `u`. */
  function CountRemote(tail: seq<Track>, u: string): nat
    decreases |tail|
  {
    if tail == [] then 0
    else (if !tail[0].isLocal && tail[0].uri == u then 1 else 0) + CountRemote(tail[1..], u)
  }

  /** `localNum`: the number of local files in the tail. */
  function LocalCount(tail: seq<Track>): (n: nat)
    ensures n <= |tail|
    decreases |tail|
  {
    if tail == [] then 0 else (if tail[0].isLocal then 1 else 0) + LocalCount(tail[1..])
  }

  /** Duplicates are kept: a missing URI is appended as often as it occurs in the tail. */
  lemma {:induction false} MissingUrisCount(headUris: seq<string>, tail: seq<Track>, u: string)
    ensures multiset(MissingUris(headUris, tail))[u] == if u in headUris then 0 else CountRemote(tail, u)
    decreases |tail|
  {
    if tail != [] {
      MissingUrisCount(headUris, tail[1..], u);
    }
  }

  /** The filter works track by track, so it keeps the tail's order. */
  lemma {:induction false} MissingUrisAppend(headUris: seq<string>, a: seq<Track>, b: seq<Track>)
    ensures MissingUris(headUris, a + b) == MissingUris(headUris, a) + MissingUris(headUris, b)
    decreases |a|
  {
    if a == [] {
      assert a + b == b;
    } else {
      assert (a + b)[1..] == a[1..] + b;
      MissingUrisAppend(headUris, a[1..], b);
    }
  }

  /** Every tail track is local, already in the head, or appended. */
  lemma {:induction false} PopulateAccounting(headUris: seq<string>, tail: seq<Track>)
    ensures |MissingUris(headUris, tail)| + LocalCount(tail) + |KeptRemote(headUris, tail)| == |tail|
    decreases |tail|
  {
    if tail != [] {
      PopulateAccounting(headUris, tail[1..]);
    }
  }

  /** The non-local tail tracks whose URI the head already has. */
  function KeptRemote(headUris: seq<string>, tail: seq<Track>): seq<Track>
    decreases |tail|
  {
    if tail == [] then []
    else (if !tail[0].isLocal && tail[0].uri in headUris then [tail[0]] else []) + KeptRemote(headUris, tail[1..])
  }

  /** The example of the populate documentation: head a, b, c and tail e, b, d give a, b, c, e, d. */
  lemma PopulateExample()
    ensures ["a", "b", "c"] + MissingUris(["a", "b", "c"], [Track(false, "e"), Track(false, "b"), Track(false, "d")])
         == ["a", "b", "c", "e", "d"]
  {
    var tail := [Track(false, "e"), Track(false, "b"), Track(false, "d")];
    assert tail[1..] == [Track(false, "b"), Track(false, "d")];
    assert tail[1..][1..] == [Track(false, "d")];
  }

  // ---------------------------------------------------------------------------
  // batches
  // ---------------------------------------------------------------------------

  /** `splice(0, 100)` repeated until empty: consecutive batches from the front. */
  function FrontBatches<T>(s: seq<T>): seq<seq<T>>
    decreases |s|
  {
    if |s| == 0 then []
    else
      var n := Min(BatchLimit, |s|);
      [s[..n]] + FrontBatches(s[n..])
  }

  /** The front batches spell out the list, each holds 1 to 100 items, and there are as few as can be. */
  lemma {:induction false} FrontBatchesShape<T>(s: seq<T>)
    ensures Concat(FrontBatches(s)) == s
    ensures forall k :: 0 <= k < |FrontBatches(s)| ==> 0 < |FrontBatches(s)[k]| <= BatchLimit
    ensures |FrontBatches(s)| == (|s| + BatchLimit - 1) / BatchLimit
    decreases |s|
  {
    if |s| > 0 {
      var n := Min(BatchLimit, |s|);
      FrontBatchesShape(s[n..]);
      assert s[..n] + s[n..] == s;
      var bs := FrontBatches(s);
      assert bs[1..] == FrontBatches(s[n..]);
    }
  }

  /** `splice(max(length - 100, 0), 100)` repeated until empty: batches from the back. */
  function BackBatches<T>(s: seq<T>): seq<seq<T>>
    decreases |s|
  {
    if |s| == 0 then []
    else
      var k := Max(|s| - BatchLimit, 0);
      [s[k..]] + BackBatches(s[..k])
  }

  /** Each back batch holds 1 to 100 items, and there are as few as can be. */
  lemma {:induction false} BackBatchesShape<T>(s: seq<T>)
    ensures forall k :: 0 <= k < |BackBatches(s)| ==> 0 < |BackBatches(s)[k]| <= BatchLimit
    ensures |BackBatches(s)| == (|s| + BatchLimit - 1) / BatchLimit
    decreases |s|
  {
    if |s| > 0 {
      var k := Max(|s| - BatchLimit, 0);
      BackBatchesShape(s[..k]);
      var bs := BackBatches(s);
      assert bs[1..] == BackBatches(s[..k]);
    }
  }

  /** Read from last to first, the back batches spell out the whole list. */
  lemma {:induction false} BackBatchesConcat<T>(s: seq<T>)
    ensures Concat(Reversed(BackBatches(s))) == s
    decreases |s|
  {
    if |s| > 0 {
      var k := Max(|s| - BatchLimit, 0);
      var bs := BackBatches(s);
      assert bs == [s[k..]] + BackBatches(s[..k]);
      assert Reversed(bs) == Reversed(BackBatches(s[..k])) + [s[k..]];
      ConcatAppend(Reversed(BackBatches(s[..k])), [s[k..]]);
      BackBatchesConcat(s[..k]);
      assert s[..k] + s[k..] == s;
    }
  }

  function Reversed<T>(s: seq<T>): (r: seq<T>)
    ensures |r| == |s| && forall i :: 0 <= i < |s| ==> r[i] == s[|s| - 1 - i]
  {
    if s == [] then [] else Reversed(s[1..]) + [s[0]]
  }

  predicate StrictlyIncreasing(s: seq<int>)
  {
    forall i, j :: 0 <= i < j < |s| ==> s[i] < s[j]
  }

  /**
   * On an increasing list of positions, every position in a back batch is
   * larger than every position in the batches after it.
   */
  lemma {:induction false} BackBatchesDescend(s: seq<int>)
    requires StrictlyIncreasing(s)
    ensures forall j, k, x, y :: 0 <= j < k < |BackBatches(s)| && x in BackBatches(s)[j] && y in BackBatches(s)[k] ==> x > y
    decreases |s|
  {
    if |s| > 0 {
      var k := Max(|s| - BatchLimit, 0);
      var bs := BackBatches(s);
      assert bs == [s[k..]] + BackBatches(s[..k]);
      BackBatchesDescend(s[..k]);
      forall j, m, x, y | 0 <= j < m < |bs| && x in bs[j] && y in bs[m]
        ensures x > y
      {
        if j == 0 {
          BatchWithin(s[..k], m - 1, y);
        } else {
          assert bs[j] == BackBatches(s[..k])[j - 1] && bs[m] == BackBatches(s[..k])[m - 1];
        }
      }
    }
  }

  /** Every element of a back batch comes from the list. */
  lemma {:induction false} BatchWithin<T>(s: seq<T>, m: nat, y: T)
    requires m < |BackBatches(s)| && y in BackBatches(s)[m]
    ensures y in s
    decreases |s|
  {
    var k := Max(|s| - BatchLimit, 0);
    if m > 0 {
      BatchWithin(s[..k], m - 1, y);
    }
  }

  // ---------------------------------------------------------------------------
  // prune: positions to remove and removal by position
  // ---------------------------------------------------------------------------

  /** `indexes`: the positions, in ascending order, of tail tracks whose URI the head lacks. */
  function MissingPositions(headUris: seq<string>, tail: seq<Track>): (r: seq<int>)
    ensures StrictlyIncreasing(r)
    ensures forall i :: 0 <= i < |r| ==> 0 <= r[i] < |tail|
    ensures forall p :: p in r <==> 0 <= p < |tail| && tail[p].uri !in headUris
    decreases |tail|
  {
    if tail == [] then []
    else
      var n := |tail| - 1;
      var rest := MissingPositions(headUris, tail[..n]);
      assert forall p :: 0 <= p < n ==> tail[..n][p] == tail[p];
      if tail[n].uri in headUris then rest else rest + [n]
  }

  /** The positions a removal request names, as a set. */
  function Positions(s: seq<int>): set<int>
  {
    set q | q in s
  }

  /** What a removal by position leaves: the items of `s` whose position (counted from `base`) is not in `ps`. */
  function Drop<T>(s: seq<T>, ps: set<int>, base: int): (r: seq<T>)
    ensures |r| <= |s|
    decreases |s|
  {
    if s == [] then []
    else (if base in ps then [] else [s[0]]) + Drop(s[1..], ps, base + 1)
  }

  /** The tail tracks whose URI is in the head. */
  function Keep(headUris: seq<string>, tail: seq<Track>): seq<Track>
    decreases |tail|
  {
    if tail == [] then [] else (if tail[0].uri in headUris then [tail[0]] else []) + Keep(headUris, tail[1..])
  }

  /** After a prune the tail holds exactly its tracks whose URI the head has. */
  lemma {:induction false} KeepMembers(headUris: seq<string>, tail: seq<Track>)
    ensures forall t :: t in Keep(headUris, tail) <==> t in tail && t.uri in headUris
    decreases |tail|
  {
    if tail != [] {
      KeepMembers(headUris, tail[1..]);
      assert tail == [tail[0]] + tail[1..];
    }
  }

  lemma {:induction false} DropAppend<T>(a: seq<T>, b: seq<T>, ps: set<int>, base: int)
    ensures Drop(a + b, ps, base) == Drop(a, ps, base) + Drop(b, ps, base + |a|)
    decreases |a|
  {
    if a == [] {
      assert a + b == b;
    } else {
      var ab := a + b;
      assert ab[0] == a[0] && ab[1..] == a[1..] + b;
      DropAppend(a[1..], b, ps, base + 1);
      var x, y := Drop(a[1..], ps, base + 1), Drop(b, ps, base + |a|);
      if base in ps {
        assert Drop(ab, ps, base) == [] + (x + y) == x + y;
        assert Drop(a, ps, base) == [] + x == x;
      } else {
        var head := [a[0]];
        assert Drop(ab, ps, base) == head + (x + y);
        assert Drop(a, ps, base) == head + x;
        assert head + (x + y) == (head + x) + y;
      }
    }
  }

  /** Removal depends only on which positions inside the list are named. */
  lemma {:induction false} DropAgree<T>(s: seq<T>, ps: set<int>, qs: set<int>, base: int)
    requires forall i :: base <= i < base + |s| ==> (i in ps <==> i in qs)
    ensures Drop(s, ps, base) == Drop(s, qs, base)
    decreases |s|
  {
    if s != [] {
      DropAgree(s[1..], ps, qs, base + 1);
    }
  }

  lemma {:induction false} DropNone<T>(s: seq<T>, ps: set<int>, base: int)
    requires forall i :: base <= i < base + |s| ==> i !in ps
    ensures Drop(s, ps, base) == s
    decreases |s|
  {
    if s != [] {
      DropNone(s[1..], ps, base + 1);
      assert [s[0]] + s[1..] == s;
    }
  }

  /** Removing the positions that hold tracks missing from the head keeps exactly the others. */
  lemma {:induction false} DropMissingKeeps(headUris: seq<string>, s: seq<Track>, ps: set<int>, base: int)
    requires forall i :: 0 <= i < |s| ==> (base + i in ps <==> s[i].uri !in headUris)
    ensures Drop(s, ps, base) == Keep(headUris, s)
    decreases |s|
  {
    if s != [] {
      assert forall i :: 0 <= i < |s| - 1 ==> s[1..][i] == s[i + 1];
      DropMissingKeeps(headUris, s[1..], ps, base + 1);
    }
  }

  /**
   * Removing the positions of a lower set from what is left after removing a
   * higher set is removing both at once: removal from the back leaves the
   * lower positions pointing at the same tracks.
   */
  lemma DropCompose<T>(s: seq<T>, high: set<int>, low: set<int>, m: int)
    requires 0 <= m <= |s|
    requires forall c :: c in high ==> c >= m
    requires forall p :: p in low ==> p < m
    ensures |Drop(s, high, 0)| >= m
    ensures Drop(Drop(s, high, 0), low, 0) == Drop(s, high + low, 0)
  {
    var a, b := s[..m], s[m..];
    assert a + b == s;
    DropAppend(a, b, high, 0);
    DropNone(a, high, 0);
    var y := Drop(b, high, m);
    DropAppend(a, y, low, 0);
    DropNone(y, low, m);
    DropAppend(a, b, high + low, 0);
    DropAgree(a, high + low, low, 0);
    DropAgree(b, high + low, high, m);
  }

  /** On increasing positions, everything from index `i` on is at least `m`, the position at `i` (or `bound` past the end). */
  lemma PositionsFrom(positions: seq<int>, i: nat, bound: int)
    requires StrictlyIncreasing(positions) && i <= |positions|
    requires forall j :: 0 <= j < |positions| ==> positions[j] < bound
    ensures forall c :: c in Positions(positions[i..]) ==> c >= (if i < |positions| then positions[i] else bound)
  {
    forall c | c in Positions(positions[i..]) ensures c >= (if i < |positions| then positions[i] else bound) {
      var j :| i <= j < |positions| && positions[j] == c;
    }
  }

  /** On increasing positions, everything before index `i` is below the position at `i` (or below `bound`). */
  lemma PositionsBefore(positions: seq<int>, k: nat, i: nat, bound: int)
    requires StrictlyIncreasing(positions) && k <= i <= |positions|
    requires forall j :: 0 <= j < |positions| ==> positions[j] < bound
    ensures forall c :: c in Positions(positions[k..i]) ==> c < (if i < |positions| then positions[i] else bound)
  {
    forall c | c in Positions(positions[k..i]) ensures c < (if i < |positions| then positions[i] else bound) {
      var j :| k <= j < i && positions[j] == c;
    }
  }

  lemma PositionsSplit(positions: seq<int>, k: nat, i: nat)
    requires k <= i <= |positions|
    ensures Positions(positions[i..]) + Positions(positions[k..i]) == Positions(positions[k..])
  {
    assert positions[k..] == positions[k..i] + positions[i..];
  }

  /**
   * Removing the run `positions[k..i]` of increasing positions after the
   * positions from `i` on were removed is removing `positions[k..]` at once.
   */
  lemma PruneStep(tail: seq<Track>, positions: seq<int>, k: nat, i: nat)
    requires StrictlyIncreasing(positions) && forall j :: 0 <= j < |positions| ==> 0 <= positions[j] < |tail|
    requires k <= i <= |positions|
    ensures Drop(Drop(tail, Positions(positions[i..]), 0), Positions(positions[k..i]), 0) == Drop(tail, Positions(positions[k..]), 0)
  {
    var m := if i < |positions| then positions[i] else |tail|;
    PositionsFrom(positions, i, |tail|);
    PositionsBefore(positions, k, i, |tail|);
    DropCompose(tail, Positions(positions[i..]), Positions(positions[k..i]), m);
    PositionsSplit(positions, k, i);
  }

  /** The prune theorem on values: removing all missing positions keeps exactly the tracks the head has. */
  lemma PruneKeeps(headUris: seq<string>, tail: seq<Track>)
    ensures Drop(tail, Positions(MissingPositions(headUris, tail)), 0) == Keep(headUris, tail)
  {
    DropMissingKeeps(headUris, tail, Positions(MissingPositions(headUris, tail)), 0);
  }

  /** The example of the prune documentation: head a, b, c and tail e, b, d, c, f, g leave b, c. */
  lemma PruneExample()
    ensures Keep(["a", "b", "c"], [Track(false, "e"), Track(false, "b"), Track(false, "d"), Track(false, "c"), Track(false, "f"), Track(false, "g")])
         == [Track(false, "b"), Track(false, "c")]
  {
  }
}
