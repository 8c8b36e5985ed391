// The marker list of the sample ring: a list kept sorted by position that
// stands for a finite map from positions to markers.

module Markers {

  /** A marker together with the absolute position it annotates. */
  datatype MarkerInternal<M> = MarkerInternal(pos: nat, m: M)

  /** The finite map the list stands for. */
  ghost function MapOf<M>(ms: seq<MarkerInternal<M>>): map<nat, M> {
    if ms == [] then map[]
    else MapOf(ms[..|ms| - 1])[ms[|ms| - 1].pos := ms[|ms| - 1].m]
  }

  /** The part of the map at and above a position. */
  ghost function Retained<M>(m: map<nat, M>, lo: nat): map<nat, M> {
    map p | p in m && lo <= p :: m[p]
  }

  lemma RetainedTwice<M>(m: map<nat, M>, lo: nat, hi: nat)
    requires lo <= hi
    ensures Retained(Retained(m, lo), hi) == Retained(m, hi)
  {
  }

  lemma NothingBelow<M>(ms: seq<MarkerInternal<M>>, lo: nat)
    requires forall i :: 0 <= i < |ms| ==> lo <= ms[i].pos
    ensures Retained(MapOf(ms), lo) == MapOf(ms)
  {
    forall p | p in MapOf(ms)
      ensures lo <= p
    {
      KeysOfMap(ms, p);
    }
  }

  ghost predicate Sorted<M>(ms: seq<MarkerInternal<M>>) {
    forall i, j :: 0 <= i < j < |ms| ==> ms[i].pos <= ms[j].pos
  }

  /** Duplicates are allowed, but they all carry the marker the map holds. */
  ghost predicate Agree<M>(ms: seq<MarkerInternal<M>>) {
    forall i :: 0 <= i < |ms| ==> ms[i].pos in MapOf(ms) && ms[i].m == MapOf(ms)[ms[i].pos]
  }

  ghost predicate WellFormed<M>(ms: seq<MarkerInternal<M>>) {
    Sorted(ms) && Agree(ms)
  }

  ghost predicate Between<M>(ms: seq<MarkerInternal<M>>, lo: nat, hi: nat) {
    forall i :: 0 <= i < |ms| ==> lo <= ms[i].pos < hi
  }

  /** The keys of the map are exactly the positions in the list. */
  lemma {:induction false} KeysOfMap<M>(ms: seq<MarkerInternal<M>>, p: nat)
    ensures p in MapOf(ms) <==> exists i :: 0 <= i < |ms| && ms[i].pos == p
  {
    if ms != [] {
      var front := ms[..|ms| - 1];
      KeysOfMap(front, p);
      assert forall i :: 0 <= i < |front| ==> front[i] == ms[i];
      if ms[|ms| - 1].pos != p && exists i :: 0 <= i < |ms| && ms[i].pos == p {
        var i :| 0 <= i < |ms| && ms[i].pos == p;
        assert front[i].pos == p;
      }
    }
  }

  /** In a well-formed list a search from either end finds what the map holds. */
  lemma EqualPositionsEqualMarkers<M>(ms: seq<MarkerInternal<M>>, i: nat, j: nat)
    requires WellFormed(ms)
    requires i < |ms| && j < |ms| && ms[i].pos == ms[j].pos
    ensures ms[i].m == ms[j].m
  {
  }

  /** The list after `addMarker`: from the back, every marker at the position is
      overwritten, and a new one is put behind the first smaller position. */
  ghost function Insert<M>(ms: seq<MarkerInternal<M>>, pos: nat, m: M): seq<MarkerInternal<M>> {
    if ms == [] then [MarkerInternal(pos, m)]
    else
      var front, last := ms[..|ms| - 1], ms[|ms| - 1];
      if last.pos < pos then ms + [MarkerInternal(pos, m)]
      else if last.pos == pos then Insert(front, pos, m) + [MarkerInternal(pos, m)]
      else Insert(front, pos, m) + [last]
  }

  lemma {:induction false} InsertElements<M>(ms: seq<MarkerInternal<M>>, pos: nat, m: M)
    requires Sorted(ms)
    ensures forall x :: x in Insert(ms, pos, m) ==> x == MarkerInternal(pos, m) || (x in ms && x.pos != pos)
  {
    if ms != [] {
      var front, last := ms[..|ms| - 1], ms[|ms| - 1];
      if last.pos >= pos {
        InsertElements(front, pos, m);
      }
    }
  }

  lemma SortedAppend<M>(ms: seq<MarkerInternal<M>>, last: MarkerInternal<M>)
    requires Sorted(ms)
    requires forall x :: x in ms ==> x.pos <= last.pos
    ensures Sorted(ms + [last])
  {
    forall i, j | 0 <= i < j < |ms + [last]|
      ensures (ms + [last])[i].pos <= (ms + [last])[j].pos
    {
      assert ms[i] in ms;
    }
  }

  lemma {:induction false} InsertSorted<M>(ms: seq<MarkerInternal<M>>, pos: nat, m: M)
    requires Sorted(ms)
    ensures Sorted(Insert(ms, pos, m))
  {
    if ms == [] {
    } else {
      var front, last := ms[..|ms| - 1], ms[|ms| - 1];
      if last.pos < pos {
        SortedAppend(ms, MarkerInternal(pos, m));
      } else {
        InsertSorted(front, pos, m);
        InsertElements(front, pos, m);
        SortedAppend(Insert(front, pos, m), if last.pos == pos then MarkerInternal(pos, m) else last);
      }
    }
  }

  /** `addMarker` is map update, although it may leave duplicates in the list. */
  lemma {:induction false} InsertIsMapUpdate<M>(ms: seq<MarkerInternal<M>>, pos: nat, m: M)
    ensures MapOf(Insert(ms, pos, m)) == MapOf(ms)[pos := m]
  {
    if ms != [] {
      var front, last := ms[..|ms| - 1], ms[|ms| - 1];
      var whole := Insert(ms, pos, m);
      if last.pos < pos {
        assert whole[..|whole| - 1] == ms;
      } else {
        InsertIsMapUpdate(front, pos, m);
        assert whole[..|whole| - 1] == Insert(front, pos, m);
      }
    }
  }

  lemma InsertWellFormed<M>(ms: seq<MarkerInternal<M>>, pos: nat, m: M)
    requires WellFormed(ms)
    ensures WellFormed(Insert(ms, pos, m))
  {
    InsertSorted(ms, pos, m);
    InsertElements(ms, pos, m);
    InsertIsMapUpdate(ms, pos, m);
    var whole := Insert(ms, pos, m);
    forall i | 0 <= i < |whole|
      ensures whole[i].pos in MapOf(whole) && whole[i].m == MapOf(whole)[whole[i].pos]
    {
      assert whole[i] in whole;
    }
  }

  /** Evicting the markers below a position from a sorted list removes a prefix
      of the list, and exactly those keys of the map. */
  lemma {:induction false} DropIsMapRestriction<M>(ms: seq<MarkerInternal<M>>, k: nat, lo: nat)
    requires WellFormed(ms) && k <= |ms|
    requires forall i :: 0 <= i < k ==> ms[i].pos < lo
    requires forall i :: k <= i < |ms| ==> lo <= ms[i].pos
    ensures WellFormed(ms[k..])
    ensures MapOf(ms[k..]) == Retained(MapOf(ms), lo)
  {
    forall p
      ensures p in MapOf(ms[k..]) <==> p in MapOf(ms) && lo <= p
    {
      KeysOfMap(ms, p);
      KeysOfMap(ms[k..], p);
      if i :| 0 <= i < |ms| && ms[i].pos == p && lo <= p {
        assert ms[k..][i - k].pos == p;
      }
    }
    forall p | p in MapOf(ms[k..])
      ensures MapOf(ms[k..])[p] == MapOf(ms)[p]
    {
      LastWins(ms[k..], p);
      LastWins(ms, p);
    }
  }

  /** The map holds a marker that the list carries at that position. */
  lemma {:induction false} LastWins<M>(ms: seq<MarkerInternal<M>>, p: nat)
    requires p in MapOf(ms)
    ensures exists i :: 0 <= i < |ms| && ms[i] == MarkerInternal(p, MapOf(ms)[p])
  {
    var front := ms[..|ms| - 1];
    if ms[|ms| - 1].pos != p {
      LastWins(front, p);
      var i :| 0 <= i < |front| && front[i] == MarkerInternal(p, MapOf(front)[p]);
      assert ms[i] == front[i];
    }
  }
}
