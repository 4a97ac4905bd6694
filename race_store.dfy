/** The race-session store: the active race id, the selected rockets (toggle
    with first-in-first-out replacement, at most two), the newest-first history
    of finished races (capacity ten, no deduplication) and the per-rocket
    progress map (last value wins). Each store action replaces one field. */
module RaceStore {
  import opened Types

  /** Number of finished races the history keeps (`slice(0, 10)`). */
  const HistoryCapacity := 10

  // ---------------------------------------------------------------------------
  // Selection

  /** No identity occurs twice. */
  ghost predicate NoDuplicates<T>(s: seq<T>)
  {
    forall i, j :: 0 <= i < j < |s| ==> s[i] != s[j]
  }

  /** The selection invariant: at most two rockets, none twice. */
  ghost predicate SelectionValid(sel: seq<string>)
  {
    |sel| <= 2 && NoDuplicates(sel)
  }

  /** `s.filter(y => y !== x)`: every occurrence of `x` removed, the rest kept in order. */
  function Without(s: seq<string>, x: string): (r: seq<string>)
    ensures |r| <= |s|
    ensures forall y :: y in r <==> y in s && y != x
    ensures x in s ==> |r| < |s|
    ensures x !in s ==> r == s
    // every other element keeps its multiplicity; `x` is gone
    ensures multiset(r) == multiset(s)[x := 0]
  {
    if s == [] then []
    else
      assert s == [s[0]] + s[1..];
      if s[0] == x then Without(s[1..], x)
      else [s[0]] + Without(s[1..], x)
  }

  /** The filter works element by element: filtering a concatenation filters
      each part and keeps the parts in order. With the one-element cases
      (`[x]` gives `[]`, any other `[y]` gives `[y]`) this fixes the result
      of every input, duplicates included. */
  lemma {:induction false} WithoutConcat(a: seq<string>, b: seq<string>, x: string)
    ensures Without(a + b, x) == Without(a, x) + Without(b, x)
  {
    if a == [] {
      assert a + b == b;
    } else {
      assert (a + b)[0] == a[0] && (a + b)[1..] == a[1..] + b;
      WithoutConcat(a[1..], b, x);
      if a[0] != x {
        assert [a[0]] + (Without(a[1..], x) + Without(b, x)) == ([a[0]] + Without(a[1..], x)) + Without(b, x);
      }
    }
  }

  /** Removing an element that occurs once, at index `i`, closes the gap:
      the elements before and after it keep their order. */
  lemma {:induction false} WithoutUnique(s: seq<string>, i: nat)
    requires i < |s| && NoDuplicates(s)
    ensures Without(s, s[i]) == s[..i] + s[i + 1..]
  {
    if i == 0 {
      assert s[0] !in s[1..];
    } else {
      assert s[1..][i - 1] == s[i];
      assert NoDuplicates(s[1..]);
      WithoutUnique(s[1..], i - 1);
      assert s[1..][..i - 1] + s[1..][i..] == s[1..i] + s[i + 1..];
      assert [s[0]] + (s[1..i] + s[i + 1..]) == s[..i] + s[i + 1..];
    }
  }

  /** Filtering keeps a duplicate-free sequence duplicate-free. */
  lemma {:induction false} WithoutNoDuplicates(s: seq<string>, x: string)
    requires NoDuplicates(s)
    ensures NoDuplicates(Without(s, x))
  {
    if s != [] {
      var rest := s[1..];
      assert NoDuplicates(rest);
      WithoutNoDuplicates(rest, x);
      if s[0] != x {
        assert s[0] !in rest;
        ConsNoDuplicates(s[0], Without(rest, x));
      }
    }
  }

  /** Putting a new element in front keeps a sequence duplicate-free. */
  lemma ConsNoDuplicates(y: string, t: seq<string>)
    requires NoDuplicates(t) && y !in t
    ensures NoDuplicates([y] + t)
  {
    var r := [y] + t;
    forall i, j | 0 <= i < j < |r| ensures r[i] != r[j] {
      assert r[j] == t[j - 1];
      if i > 0 {
        assert r[i] == t[i - 1];
      }
    }
  }

  /** Filtering an element out of a sequence it was appended to, and nowhere
      else, gives the sequence back. */
  lemma {:induction false} WithoutAppended(s: seq<string>, x: string)
    requires x !in s
    ensures Without(s + [x], x) == s
  {
    if s == [] {
      assert [x][1..] == [];
    } else {
      assert (s + [x])[1..] == s[1..] + [x];
      WithoutAppended(s[1..], x);
      assert [s[0]] + s[1..] == s;
    }
  }

  /** The new selection after `selectRocket(id)`. */
  function Toggled(sel: seq<string>, id: string): (r: seq<string>)
    // toggle: `id` is selected afterwards exactly when it was not before
    ensures id in r <==> id !in sel
    // deselecting keeps every other selected rocket, and adds none
    ensures id in sel ==> forall y :: y in r <==> y in sel && y != id
    // selecting puts `id` last and leaves at most two selected
    ensures id !in sel ==> 1 <= |r| <= 2 && r[|r| - 1] == id
    // selecting keeps the most recent earlier selection
    ensures id !in sel && sel != [] ==> r[0] == (if |sel| >= 2 then sel[1] else sel[0])
  {
    if id in sel then Without(sel, id)
    else if |sel| >= 2 then [sel[1], id]
    else sel + [id]
  }

  /** Deselecting removes the rocket and keeps the remaining ones in their
      original order. */
  lemma DeselectKeepsOrder(sel: seq<string>, i: nat)
    requires i < |sel| && NoDuplicates(sel)
    ensures Toggled(sel, sel[i]) == sel[..i] + sel[i + 1..]
  {
    WithoutUnique(sel, i);
  }

  /** With two rockets selected, a new one evicts the first-selected. */
  lemma SelectEvictsFirst(sel: seq<string>, id: string)
    requires |sel| == 2 && id !in sel && sel[0] != sel[1]
    ensures Toggled(sel, id) == sel[1..] + [id]
    ensures sel[0] !in Toggled(sel, id)
  {
  }

  /** With fewer than two selected, a new rocket is appended at the end. */
  lemma SelectAppends(sel: seq<string>, id: string)
    requires |sel| < 2 && id !in sel
    ensures Toggled(sel, id) == sel + [id]
  {
  }

  /** `selectRocket` keeps the selection invariant. */
  lemma SelectPreservesValid(sel: seq<string>, id: string)
    requires SelectionValid(sel)
    ensures SelectionValid(Toggled(sel, id))
  {
    if id in sel {
      WithoutNoDuplicates(sel, id);
    }
  }

  /** Selecting a rocket that fits and then selecting it again undoes the
      first selection; in particular twice from empty gives empty. */
  lemma {:induction false} SelectTwiceUndoes(sel: seq<string>, id: string)
    requires |sel| < 2 && id !in sel
    ensures Toggled(Toggled(sel, id), id) == sel
  {
    WithoutAppended(sel, id);
  }

  // ---------------------------------------------------------------------------
  // Finished-race history

  /** The new history after `addFinishedRace(race)`:
      `[race, ...history].slice(0, 10)`. */
  function Prepended(history: seq<Race>, race: Race): (r: seq<Race>)
    ensures |r| == if |history| < HistoryCapacity then |history| + 1 else HistoryCapacity
    ensures r[0] == race
    ensures forall i :: 1 <= i < |r| ==> r[i] == history[i - 1]
  {
    var all := [race] + history;
    if |all| <= HistoryCapacity then all else all[..HistoryCapacity]
  }

  /** A full history drops its oldest entry. */
  lemma PrependedDropsOldest(history: seq<Race>, race: Race)
    requires |history| == HistoryCapacity
    ensures Prepended(history, race) == [race] + history[..HistoryCapacity - 1]
  {
  }

  /** How many history entries carry race id `id`. */
  function Occurrences(history: seq<Race>, id: string): nat
  {
    if history == [] then 0
    else (if history[0].id == id then 1 else 0) + Occurrences(history[1..], id)
  }

  /** There is no deduplication: while the history has room, adding a race
      adds one more entry with its id, whatever is already there. */
  lemma {:induction false} PrependedDoesNotDeduplicate(history: seq<Race>, race: Race)
    requires |history| < HistoryCapacity
    ensures Occurrences(Prepended(history, race), race.id) == Occurrences(history, race.id) + 1
  {
    assert Prepended(history, race)[1..] == history;
  }

  /** Adding the same race twice from an empty history gives two entries. */
  lemma SameRaceTwiceGivesTwoEntries(race: Race)
    ensures Prepended(Prepended([], race), race) == [race, race]
  {
  }

  // ---------------------------------------------------------------------------
  // Progress map

  /** The progress map after a sequence of `updateRocketProgress` calls. */
  function Replay(m: map<string, RocketProgress>, events: seq<(string, RocketProgress)>): map<string, RocketProgress>
    decreases |events|
  {
    if events == [] then m
    else Replay(m[events[0].0 := events[0].1], events[1..])
  }

  /** Index `i` holds the last update of rocket `k`. */
  ghost predicate LastUpdateAt(events: seq<(string, RocketProgress)>, k: string, i: int)
  {
    0 <= i < |events| && events[i].0 == k && forall j :: i < j < |events| ==> events[j].0 != k
  }

  /** Last value wins: after a run of updates, a rocket's entry is the value of
      the last update for it, or its old entry if no update named it. */
  lemma {:induction false} ReplayLastValueWins(m: map<string, RocketProgress>, events: seq<(string, RocketProgress)>, k: string)
    ensures k in Replay(m, events) <==> k in m || exists i :: 0 <= i < |events| && events[i].0 == k
    ensures (forall i :: 0 <= i < |events| ==> events[i].0 != k) ==>
              (k in m ==> Replay(m, events)[k] == m[k])
    ensures forall i :: LastUpdateAt(events, k, i) ==> Replay(m, events)[k] == events[i].1
    decreases |events|
  {
    if events != [] {
      var m' := m[events[0].0 := events[0].1];
      var rest := events[1..];
      ReplayLastValueWins(m', rest, k);
      if k in Replay(m, events) && k !in m {
        if events[0].0 != k {
          var i :| 0 <= i < |rest| && rest[i].0 == k;
          assert events[i + 1].0 == k;
        }
      }
      if exists i :: 0 <= i < |events| && events[i].0 == k {
        var i :| 0 <= i < |events| && events[i].0 == k;
        if i > 0 {
          assert rest[i - 1].0 == k;
        }
      }
      forall i | LastUpdateAt(events, k, i)
        ensures Replay(m, events)[k] == events[i].1
      {
        if i > 0 {
          assert rest[i - 1] == events[i];
          assert forall j :: i - 1 < j < |rest| ==> rest[j] == events[j + 1];
        } else {
          assert forall j :: 0 <= j < |rest| ==> rest[j] == events[j + 1];
        }
      }
      if forall i :: 0 <= i < |events| ==> events[i].0 != k {
        assert forall i :: 0 <= i < |rest| ==> rest[i] == events[i + 1];
      }
    }
  }

  // ---------------------------------------------------------------------------
  // The store

  class Store {
    var activeRaceId: Option<string>
    var finishedRaces: seq<Race>
    var selectedRockets: seq<string>
    var rocketProgress: map<string, RocketProgress>

    /** The invariants the store's actions keep. */
    ghost predicate Valid()
      reads this
    {
      SelectionValid(selectedRockets) && |finishedRaces| <= HistoryCapacity
    }

    /** The initial state: no race, empty history, nothing selected, no progress. */
    constructor ()
      ensures activeRaceId == None && finishedRaces == [] && selectedRockets == [] && rocketProgress == map[]
      ensures Valid()
    {
      activeRaceId := None;
      finishedRaces := [];
      selectedRockets := [];
      rocketProgress := map[];
    }

    /** `setActiveRace(raceId)`: replaces only the active race id. */
    method SetActiveRace(raceId: Option<string>)
      modifies this
      ensures activeRaceId == raceId
      ensures finishedRaces == old(finishedRaces) && selectedRockets == old(selectedRockets)
      ensures rocketProgress == old(rocketProgress)
      ensures old(Valid()) ==> Valid()
    {
      activeRaceId := raceId;
    }

    /** `addFinishedRace(race)`: newest first, at most ten kept. */
    method AddFinishedRace(race: Race)
      modifies this
      ensures finishedRaces == Prepended(old(finishedRaces), race)
      ensures activeRaceId == old(activeRaceId) && selectedRockets == old(selectedRockets)
      ensures rocketProgress == old(rocketProgress)
      ensures old(Valid()) ==> Valid()
    {
      finishedRaces := Prepended(finishedRaces, race);
    }

    /** `selectRocket(id)`: toggle, or append, or evict the first-selected. */
    method SelectRocket(rocketId: string)
      modifies this
      ensures selectedRockets == Toggled(old(selectedRockets), rocketId)
      ensures activeRaceId == old(activeRaceId) && finishedRaces == old(finishedRaces)
      ensures rocketProgress == old(rocketProgress)
      ensures old(Valid()) ==> Valid()
    {
      if old(Valid()) {
        SelectPreservesValid(selectedRockets, rocketId);
      }
      var currentSelected := selectedRockets;
      if rocketId in currentSelected {
        selectedRockets := Without(currentSelected, rocketId);
      } else if |currentSelected| >= 2 {
        selectedRockets := [currentSelected[1], rocketId];
      } else {
        selectedRockets := currentSelected + [rocketId];
      }
    }

    /** `clearSelectedRockets()`: replaces only the selection, with none. */
    method ClearSelectedRockets()
      modifies this
      ensures selectedRockets == []
      ensures activeRaceId == old(activeRaceId) && finishedRaces == old(finishedRaces)
      ensures rocketProgress == old(rocketProgress)
      ensures old(Valid()) ==> Valid()
    {
      selectedRockets := [];
    }

    /** `updateRocketProgress(id, progress)`: overwrites one key, keeps the others. */
    method UpdateRocketProgress(rocketId: string, progress: RocketProgress)
      modifies this
      ensures rocketProgress == old(rocketProgress)[rocketId := progress]
      ensures rocketId in rocketProgress && rocketProgress[rocketId] == progress
      ensures forall k :: k != rocketId ==>
                (k in rocketProgress <==> k in old(rocketProgress)) &&
                (k in rocketProgress ==> rocketProgress[k] == old(rocketProgress)[k])
      ensures activeRaceId == old(activeRaceId) && finishedRaces == old(finishedRaces)
      ensures selectedRockets == old(selectedRockets)
      ensures old(Valid()) ==> Valid()
    {
      rocketProgress := rocketProgress[rocketId := progress];
    }

    /** `clearRocketProgress()`: replaces only the progress map, with the empty one. */
    method ClearRocketProgress()
      modifies this
      ensures rocketProgress == map[]
      ensures activeRaceId == old(activeRaceId) && finishedRaces == old(finishedRaces)
      ensures selectedRockets == old(selectedRockets)
      ensures old(Valid()) ==> Valid()
    {
      rocketProgress := map[];
    }
  }
}
