/** The controller's timer table: one slot per timer name holding the host's
    handle (or nothing), and the host side of it, the set of handles the
    browser would still fire. `start` cancels whatever the slot held before
    installing a new handle, so a name never owns two live handles and no
    live handle is left without a slot that can cancel it. */
module Timers {

  datatype Name =
    | MemberScreen | ScanPoll | Quote | Weather | DateTime
    | PasswordTimeout | AdInterval | AdListRefresh

  datatype Kind = Repeating | OneShot

  /** Names started with `setInterval`; every other name gets `setTimeout`. */
  function KindOf(n: Name): (k: Kind)
    ensures k == Repeating <==> n in {ScanPoll, Quote, Weather, DateTime, AdInterval}
  {
    match n
    case ScanPoll => Repeating
    case Quote => Repeating
    case Weather => Repeating
    case DateTime => Repeating
    case AdInterval => Repeating
    case _ => OneShot
  }

  /** A handle as the host returns it (always a positive number, hence truthy)
      and the delay it was started with. */
  datatype Handle = Handle(id: nat, interval: int)

  /** `entries` holds the non-null slots; `live` are the handle ids the host
      would still fire; `nextId` is the next id the host hands out. */
  datatype Table = Table(entries: map<Name, Handle>, live: set<nat>, nextId: nat)

  const Empty: Table := Table(map[], {}, 1)

  function Ids(t: Table): set<nat> {
    set n | n in t.entries :: t.entries[n].id
  }

  /** Table well-formedness: ids are positive and already issued, distinct
      slots hold distinct handles, and every live handle sits in a slot. */
  ghost predicate Valid(t: Table) {
    && t.nextId > 0
    && (forall n :: n in t.entries ==> 0 < t.entries[n].id < t.nextId)
    && (forall n, m :: n in t.entries && m in t.entries && n != m ==> t.entries[n].id != t.entries[m].id)
    && (forall h :: h in t.live ==> 0 < h < t.nextId)
    && t.live <= Ids(t)
  }

  /** A repeating timer's slot always holds a live handle: only a one-shot
      handle is spent by firing. */
  ghost predicate RepeatingLive(t: Table) {
    forall n :: n in t.entries && KindOf(n) == Repeating ==> t.entries[n].id in t.live
  }

  /** The slot is non-null: what `if (TimerManager.timers[name])` tests. */
  predicate IsSet(t: Table, n: Name) {
    n in t.entries
  }

  /** The slot holds a handle the host would still fire. */
  predicate IsLive(t: Table, n: Name) {
    n in t.entries && t.entries[n].id in t.live
  }

  /** `TimerManager.clear(name)`: cancels the slot's handle and empties the
      slot; an empty slot is left alone. */
  function Clear(t: Table, n: Name): (r: Table)
    ensures n !in r.entries
    ensures forall m :: m != n ==> (m in r.entries <==> m in t.entries)
    ensures forall m :: m != n && m in t.entries ==> r.entries[m] == t.entries[m]
    ensures n in t.entries ==> r.live == t.live - {t.entries[n].id}
    ensures n !in t.entries ==> r == t
    ensures r.nextId == t.nextId
    ensures Valid(t) ==> Valid(r)
    ensures Valid(t) && RepeatingLive(t) ==> RepeatingLive(r)
  {
    if n in t.entries then
      var r := Table(t.entries - {n}, t.live - {t.entries[n].id}, t.nextId);
      ClearKeepsValid(t, r, n);
      ClearKeepsRepeatingLive(t, r, n);
      r
    else t
  }

  lemma ClearKeepsValid(t: Table, r: Table, n: Name)
    requires n in t.entries
    requires r == Table(t.entries - {n}, t.live - {t.entries[n].id}, t.nextId)
    ensures Valid(t) ==> Valid(r)
  {
    if Valid(t) {
      forall h | h in r.live ensures h in Ids(r) {
        var m :| m in t.entries && t.entries[m].id == h;
        assert m != n;
        assert m in r.entries;
      }
    }
  }

  lemma ClearKeepsRepeatingLive(t: Table, r: Table, n: Name)
    requires n in t.entries
    requires r == Table(t.entries - {n}, t.live - {t.entries[n].id}, t.nextId)
    ensures Valid(t) && RepeatingLive(t) ==> RepeatingLive(r)
  {
    if Valid(t) && RepeatingLive(t) {
      forall m | m in r.entries && KindOf(m) == Repeating ensures r.entries[m].id in r.live {
        assert m != n && t.entries[m].id != t.entries[n].id;
      }
    }
  }

  /** `TimerManager.start(name, cb, interval)`: clears the slot, then installs
      a fresh handle with the given delay. */
  function Start(t: Table, n: Name, interval: int): (r: Table)
    ensures n in r.entries && r.entries[n].interval == interval
    ensures r.entries[n].id == t.nextId && r.entries[n].id in r.live
    ensures forall m :: m != n ==> (m in r.entries <==> m in t.entries)
    ensures forall m :: m != n && m in t.entries ==> r.entries[m] == t.entries[m]
    ensures r.live == Clear(t, n).live + {t.nextId}
    ensures r.nextId == t.nextId + 1
    ensures Valid(t) ==> Valid(r)
    ensures Valid(t) && n in t.entries ==> t.entries[n].id !in r.live
    ensures Valid(t) && RepeatingLive(t) ==> RepeatingLive(r)
  {
    var c := Clear(t, n);
    var r := Table(c.entries[n := Handle(c.nextId, interval)], c.live + {c.nextId}, c.nextId + 1);
    StartKeepsValid(t, c, r, n, interval);
    r
  }

  lemma StartKeepsValid(t: Table, c: Table, r: Table, n: Name, interval: int)
    requires c == Clear(t, n)
    requires r == Table(c.entries[n := Handle(c.nextId, interval)], c.live + {c.nextId}, c.nextId + 1)
    ensures Valid(t) ==> Valid(r)
    ensures Valid(t) && n in t.entries ==> t.entries[n].id !in r.live
  {
    if Valid(t) {
      assert Valid(c);
      StartLiveOwned(c, r, n, interval);
      StartDistinct(c, r, n, interval);
      if n in t.entries {
        assert t.entries[n].id < t.nextId;
      }
    }
  }

  lemma StartLiveOwned(c: Table, r: Table, n: Name, interval: int)
    requires Valid(c) && n !in c.entries
    requires r == Table(c.entries[n := Handle(c.nextId, interval)], c.live + {c.nextId}, c.nextId + 1)
    ensures r.live <= Ids(r)
  {
    forall h | h in r.live ensures h in Ids(r) {
      if h != c.nextId {
        assert h in c.live;
        assert h in Ids(c);
        var m :| m in c.entries && c.entries[m].id == h;
        assert m in r.entries && r.entries[m] == c.entries[m];
      } else {
        assert n in r.entries && r.entries[n].id == h;
      }
    }
  }

  lemma StartDistinct(c: Table, r: Table, n: Name, interval: int)
    requires Valid(c) && n !in c.entries
    requires r == Table(c.entries[n := Handle(c.nextId, interval)], c.live + {c.nextId}, c.nextId + 1)
    ensures forall m, k :: m in r.entries && k in r.entries && m != k ==> r.entries[m].id != r.entries[k].id
  {
  }

  /** Starting or clearing one name leaves every other name's live handle
      live: distinct slots hold distinct handles. */
  lemma OtherStaysLive(t: Table, n: Name, m: Name, interval: int)
    requires Valid(t) && m != n && IsLive(t, m)
    ensures IsLive(Clear(t, n), m) && Clear(t, n).entries[m] == t.entries[m]
    ensures IsLive(Start(t, n, interval), m) && Start(t, n, interval).entries[m] == t.entries[m]
  {
    if n in t.entries {
      assert t.entries[n].id != t.entries[m].id;
    }
  }

  /** Starting or clearing one name never revives another name's spent
      handle: a spent handle is older than every handle `start` makes. */
  lemma OtherStaysSpent(t: Table, n: Name, m: Name, interval: int)
    requires Valid(t) && m != n && m in t.entries && !IsLive(t, m)
    ensures !IsLive(Clear(t, n), m) && !IsLive(Start(t, n, interval), m)
  {
  }

  /** The host fires the slot's handle. A one-shot handle is spent (the host
      forgets it) but the slot keeps it: only `start` and `clear` write slots. */
  function Fire(t: Table, n: Name): (r: Table)
    ensures r.entries == t.entries && r.nextId == t.nextId
    ensures KindOf(n) == Repeating ==> r == t
    ensures KindOf(n) == OneShot && n in t.entries ==> r.live == t.live - {t.entries[n].id}
    ensures Valid(t) ==> Valid(r)
    ensures Valid(t) && RepeatingLive(t) ==> RepeatingLive(r)
  {
    if n in t.entries && KindOf(n) == OneShot then
      var r := t.(live := t.live - {t.entries[n].id});
      assert Valid(t) && RepeatingLive(t) ==> RepeatingLive(r) by {
        if Valid(t) && RepeatingLive(t) {
          forall m | m in r.entries && KindOf(m) == Repeating ensures r.entries[m].id in r.live {
            assert m != n;
          }
        }
      }
      r
    else t
  }

  const AllNames: seq<Name> :=
    [MemberScreen, ScanPoll, Quote, Weather, DateTime, PasswordTimeout, AdInterval, AdListRefresh]

  lemma AllNamesComplete(n: Name)
    ensures n in AllNames
  {
  }

  /** `TimerManager.clearAll()`: clears every slot, one name after the other. */
  method ClearAll(t: Table) returns (r: Table)
    ensures r.entries == map[]
    ensures r.live == t.live - Ids(t)
    ensures r.nextId == t.nextId
    ensures Valid(t) ==> Valid(r) && r.live == {}
  {
    r := t;
    ghost var removed: set<nat> := {};
    var i := 0;
    while i < |AllNames|
      invariant 0 <= i <= |AllNames|
      invariant forall k :: 0 <= k < i ==> AllNames[k] !in r.entries
      invariant forall m :: m in r.entries ==> m in t.entries && r.entries[m] == t.entries[m]
      invariant forall m :: m in t.entries ==> m in r.entries || t.entries[m].id in removed
      invariant removed <= Ids(t)
      invariant r.live == t.live - removed
      invariant r.nextId == t.nextId
      invariant Valid(t) ==> Valid(r)
    {
      var n := AllNames[i];
      if n in r.entries {
        removed := removed + {r.entries[n].id};
      }
      r := Clear(r, n);
      i := i + 1;
    }
    forall m ensures m !in r.entries {
      AllNamesComplete(m);
    }
    assert Ids(t) <= removed;
  }
}
