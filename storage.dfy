/** The Pi sender's alert store (`storage.py`). The two JSON files it
    keeps, the saved alerts and the published current alert, are the two
    fields of `AlertStore`; reading a file back is taken to give the packets
    that were written. The new lists `upsert_alert` and `delete_alert`
    compute are functions here, and the methods assign them. */
module Storage {
  import opened Common
  import opened AlertModel

  function Ids(s: seq<AlertPacket>): set<string>
  {
    set x | x in s :: x.alertId
  }

  ghost predicate DistinctIds(s: seq<AlertPacket>)
  {
    forall i, j :: 0 <= i < j < |s| ==> s[i].alertId != s[j].alertId
  }

  ghost predicate SortedDesc(s: seq<AlertPacket>)
  {
    forall i, j :: 0 <= i < j < |s| ==> s[i].fetchedAt >= s[j].fetchedAt
  }

  /** The first stored alert whose id is `id`, if any. */
  function Find(alerts: seq<AlertPacket>, id: string): (r: Option<AlertPacket>)
    ensures r.None? <==> id !in Ids(alerts)
    ensures r.Some? ==> r.value in alerts && r.value.alertId == id
  {
    if alerts == [] then None
    else if alerts[0].alertId == id then Some(alerts[0])
    else
      assert Ids(alerts) == {alerts[0].alertId} + Ids(alerts[1..]) by {
        assert alerts == [alerts[0]] + alerts[1..];
      }
      Find(alerts[1..], id)
  }

  /** `Find` returns the alert at the first position holding the id. */
  lemma {:induction false} FindFirst(alerts: seq<AlertPacket>, id: string, k: int)
    requires 0 <= k < |alerts| && alerts[k].alertId == id
    requires forall j :: 0 <= j < k ==> alerts[j].alertId != id
    ensures Find(alerts, id) == Some(alerts[k])
  {
    if k > 0 {
      FindFirst(alerts[1..], id, k - 1);
    }
  }

  /** `by_id[a.alertId] = a` on an insertion-ordered dict held as a list
      of entries: an existing entry with that id is replaced where it
      stands, otherwise `a` is appended. */
  function Put(entries: seq<AlertPacket>, a: AlertPacket): (r: seq<AlertPacket>)
    ensures a in r
  {
    if entries == [] then [a]
    else if entries[0].alertId == a.alertId then [a] + entries[1..]
    else [entries[0]] + Put(entries[1..], a)
  }

  /** The ids of a list with a head are the head's id and the tail's. */
  lemma IdsCons(s: seq<AlertPacket>)
    requires s != []
    ensures Ids(s) == {s[0].alertId} + Ids(s[1..])
  {
    assert s == [s[0]] + s[1..];
  }

  /** `Put` keeps every entry with another id, adds `a` and nothing else. */
  lemma {:induction false} PutMembers(entries: seq<AlertPacket>, a: AlertPacket)
    ensures forall x :: x in Put(entries, a) ==> x == a || x in entries
    ensures forall x :: x in entries && x.alertId != a.alertId ==> x in Put(entries, a)
    ensures Ids(Put(entries, a)) == Ids(entries) + {a.alertId}
  {
    if entries != [] {
      IdsCons(entries);
      var r := Put(entries, a);
      IdsCons(r);
      if entries[0].alertId == a.alertId {
        assert r[1..] == entries[1..];
      } else {
        PutMembers(entries[1..], a);
        assert r[1..] == Put(entries[1..], a);
      }
    }
  }

  /** A list has distinct ids exactly when its head's id is not among the
      tail's and the tail has distinct ids. */
  lemma DistinctCons(s: seq<AlertPacket>)
    requires s != []
    ensures DistinctIds(s) <==> s[0].alertId !in Ids(s[1..]) && DistinctIds(s[1..])
  {
    var tail := s[1..];
    if DistinctIds(s) {
      forall i, j | 0 <= i < j < |tail| ensures tail[i].alertId != tail[j].alertId {
        assert tail[i] == s[i + 1] && tail[j] == s[j + 1];
      }
      forall x | x in tail ensures x.alertId != s[0].alertId {
        var k :| 0 <= k < |tail| && tail[k] == x;
        assert s[k + 1] == x;
      }
    }
    if s[0].alertId !in Ids(tail) && DistinctIds(tail) {
      forall i, j | 0 <= i < j < |s| ensures s[i].alertId != s[j].alertId {
        assert s[j] == tail[j - 1];
        if i > 0 {
          assert s[i] == tail[i - 1];
        } else {
          assert s[j] in tail;
        }
      }
    }
  }

  /** On entries with distinct ids, `Put` keeps the ids distinct and `a` is
      the only entry with its id. */
  lemma {:induction false} PutDistinct(entries: seq<AlertPacket>, a: AlertPacket)
    requires DistinctIds(entries)
    ensures DistinctIds(Put(entries, a))
    ensures forall x :: x in Put(entries, a) && x.alertId == a.alertId ==> x == a
  {
    if entries != [] {
      var r := Put(entries, a);
      var tail := entries[1..];
      DistinctCons(entries);
      DistinctCons(r);
      if entries[0].alertId == a.alertId {
        assert r[1..] == tail;
      } else {
        PutDistinct(tail, a);
        PutMembers(tail, a);
        assert r[1..] == Put(tail, a);
      }
    }
  }

  /** `{a.alertId: a for a in alerts}`: one entry per id, in order of first
      appearance, holding the last alert with that id. */
  function ById(alerts: seq<AlertPacket>): (r: seq<AlertPacket>)
    ensures DistinctIds(r)
    ensures Ids(r) == Ids(alerts)
    ensures forall x :: x in r ==> x in alerts
  {
    if alerts == [] then []
    else
      var init := alerts[..|alerts| - 1];
      var last := alerts[|alerts| - 1];
      assert alerts == init + [last];
      assert Ids(alerts) == Ids(init) + {last.alertId};
      PutMembers(ById(init), last);
      PutDistinct(ById(init), last);
      Put(ById(init), last)
  }

  /** Places `x` after every entry of the descending list `s` whose
      `fetchedAt` is at least its own, so entries with equal keys keep
      their order (Python's sort is stable, also with `reverse=True`). */
  function InsertDesc(s: seq<AlertPacket>, x: AlertPacket): (r: seq<AlertPacket>)
    ensures multiset(r) == multiset(s) + multiset{x}
  {
    if s == [] || s[0].fetchedAt < x.fetchedAt then [x] + s
    else
      assert s == [s[0]] + s[1..];
      [s[0]] + InsertDesc(s[1..], x)
  }

  /** Inserting keeps every alert and adds `x`. */
  lemma InsertDescMembers(s: seq<AlertPacket>, x: AlertPacket)
    ensures forall y :: y in InsertDesc(s, x) <==> y in s || y == x
  {
    var r := InsertDesc(s, x);
    forall y ensures y in r <==> y in s || y == x {
      assert y in r <==> y in multiset(r);
      assert y in s <==> y in multiset(s);
    }
  }

  lemma {:induction false} InsertDescSorted(s: seq<AlertPacket>, x: AlertPacket)
    requires SortedDesc(s)
    ensures SortedDesc(InsertDesc(s, x))
  {
    var r := InsertDesc(s, x);
    if s == [] || s[0].fetchedAt < x.fetchedAt {
      forall i, j | 0 <= i < j < |r| ensures r[i].fetchedAt >= r[j].fetchedAt {
        if i > 0 {
          assert r[i] == s[i - 1] && r[j] == s[j - 1];
        } else {
          assert r[j] == s[j - 1];
        }
      }
    } else {
      var tail := s[1..];
      assert SortedDesc(tail) by {
        forall i, j | 0 <= i < j < |tail| ensures tail[i].fetchedAt >= tail[j].fetchedAt {
          assert tail[i] == s[i + 1] && tail[j] == s[j + 1];
        }
      }
      InsertDescSorted(tail, x);
      var rest := InsertDesc(tail, x);
      assert r == [s[0]] + rest;
      InsertDescMembers(tail, x);
      forall i, j | 0 <= i < j < |r| ensures r[i].fetchedAt >= r[j].fetchedAt {
        if i > 0 {
          assert r[i] == rest[i - 1] && r[j] == rest[j - 1];
        } else {
          assert r[j] == rest[j - 1];
          assert r[j] in rest;
          if r[j] != x {
            var k :| 0 <= k < |tail| && tail[k] == r[j];
            assert s[k + 1] == r[j];
          }
        }
      }
    }
  }

  /** Ids after inserting one alert. */
  lemma InsertDescIds(s: seq<AlertPacket>, x: AlertPacket)
    ensures Ids(InsertDesc(s, x)) == Ids(s) + {x.alertId}
  {
    InsertDescMembers(s, x);
  }

  /** Inserting an alert with a new id keeps ids distinct. */
  lemma {:induction false} InsertDescDistinct(s: seq<AlertPacket>, x: AlertPacket)
    requires DistinctIds(s) && x.alertId !in Ids(s)
    ensures DistinctIds(InsertDesc(s, x))
  {
    var r := InsertDesc(s, x);
    DistinctCons(r);
    if s == [] || s[0].fetchedAt < x.fetchedAt {
      assert r[1..] == s;
    } else {
      var tail := s[1..];
      DistinctCons(s);
      IdsCons(s);
      InsertDescDistinct(tail, x);
      InsertDescIds(tail, x);
      assert r[1..] == InsertDesc(tail, x);
    }
  }

  /** `sorted(entries, key=lambda a: a.fetchedAt, reverse=True)`. */
  function SortDesc(s: seq<AlertPacket>): (r: seq<AlertPacket>)
    ensures multiset(r) == multiset(s)
  {
    if s == [] then []
    else
      assert s == s[..|s| - 1] + [s[|s| - 1]];
      InsertDesc(SortDesc(s[..|s| - 1]), s[|s| - 1])
  }

  /** The sort returns a newest-first list. */
  lemma {:induction false} SortDescSorted(s: seq<AlertPacket>)
    ensures SortedDesc(SortDesc(s))
  {
    if s != [] {
      SortDescSorted(s[..|s| - 1]);
      InsertDescSorted(SortDesc(s[..|s| - 1]), s[|s| - 1]);
    }
  }

  /** The sort keeps the same alerts, hence the same ids. */
  lemma SortDescMembers(s: seq<AlertPacket>)
    ensures forall y :: y in SortDesc(s) <==> y in s
    ensures Ids(SortDesc(s)) == Ids(s)
  {
    var r := SortDesc(s);
    forall y ensures y in r <==> y in s {
      assert y in r <==> y in multiset(r);
      assert y in s <==> y in multiset(s);
    }
  }

  /** The sort keeps ids distinct. */
  lemma {:induction false} SortDescDistinct(s: seq<AlertPacket>)
    requires DistinctIds(s)
    ensures DistinctIds(SortDesc(s))
  {
    if s != [] {
      var init, last := s[..|s| - 1], s[|s| - 1];
      assert DistinctIds(init) by {
        forall i, j | 0 <= i < j < |init| ensures init[i].alertId != init[j].alertId {
          assert init[i] == s[i] && init[j] == s[j];
        }
      }
      SortDescDistinct(init);
      SortDescMembers(init);
      assert last.alertId !in Ids(SortDesc(init)) by {
        forall x | x in init ensures x.alertId != last.alertId {
          var k :| 0 <= k < |init| && init[k] == x;
          assert s[k] == x;
        }
      }
      InsertDescDistinct(SortDesc(init), last);
    }
  }

  /** The list `upsert_alert(a)` saves. */
  function Upserted(alerts: seq<AlertPacket>, a: AlertPacket): seq<AlertPacket>
  {
    SortDesc(Put(ById(alerts), a))
  }

  /** After `upsert_alert(a)` exactly one saved alert has `a`'s id and it is
      `a`; every other id stored before is still stored, holding one of its
      old alerts; nothing new appears; the list is newest first. */
  lemma UpsertedSpec(alerts: seq<AlertPacket>, a: AlertPacket)
    ensures var r := Upserted(alerts, a);
      && a in r
      && (forall x :: x in r && x.alertId == a.alertId ==> x == a)
      && DistinctIds(r)
      && Ids(r) == Ids(alerts) + {a.alertId}
      && (forall x :: x in r ==> x == a || x in alerts)
      && SortedDesc(r)
  {
    var entries := Put(ById(alerts), a);
    PutMembers(ById(alerts), a);
    PutDistinct(ById(alerts), a);
    SortDescSorted(entries);
    SortDescMembers(entries);
    SortDescDistinct(entries);
  }

  /** `[a for a in alerts if a.alertId != alert_id]`. */
  function Without(alerts: seq<AlertPacket>, id: string): (r: seq<AlertPacket>)
    ensures forall x :: x in r <==> x in alerts && x.alertId != id
    ensures |r| <= |alerts|
    ensures |r| == |alerts| <==> id !in Ids(alerts)
    ensures id !in Ids(alerts) ==> r == alerts
  {
    if alerts == [] then []
    else
      var rest := Without(alerts[1..], id);
      assert alerts == [alerts[0]] + alerts[1..];
      assert Ids(alerts) == {alerts[0].alertId} + Ids(alerts[1..]);
      if alerts[0].alertId == id then rest else [alerts[0]] + rest
  }

  /** Filtering keeps the order of what remains: it distributes over
      concatenation. */
  lemma {:induction false} WithoutAppend(s: seq<AlertPacket>, t: seq<AlertPacket>, id: string)
    ensures Without(s + t, id) == Without(s, id) + Without(t, id)
  {
    if s != [] {
      assert (s + t)[1..] == s[1..] + t;
      WithoutAppend(s[1..], t, id);
    } else {
      assert s + t == t;
    }
  }

  class AlertStore {
    /** The contents of `alerts.json`. */
    var alerts: seq<AlertPacket>
    /** The contents of `current_alert.json`, `None` while it does not
        exist. */
    var current: Option<AlertPacket>

    /** `AlertStore(state_dir)` on a fresh state directory. */
    constructor()
      ensures alerts == [] && current == None
    {
      alerts := [];
      current := None;
    }

    /** `get_alert(alert_id)`: scans the saved alerts in order and returns
        the first with that id. */
    method GetAlert(id: string) returns (r: Option<AlertPacket>)
      ensures r == Find(alerts, id)
      ensures r.None? <==> id !in Ids(alerts)
    {
      var i := 0;
      while i < |alerts|
        invariant 0 <= i <= |alerts|
        invariant Find(alerts, id) == Find(alerts[i..], id)
      {
        if alerts[i].alertId == id {
          return Some(alerts[i]);
        }
        assert alerts[i..][1..] == alerts[i + 1..];
        i := i + 1;
      }
      return None;
    }

    /** `upsert_alert(alert)`. */
    method UpsertAlert(a: AlertPacket)
      modifies this
      ensures alerts == Upserted(old(alerts), a)
      ensures current == old(current)
    {
      alerts := Upserted(alerts, a);
    }

    /** `delete_alert(alert_id)`: `False` with nothing written when no alert
        has the id; otherwise saves the others and returns `True`. */
    method DeleteAlert(id: string) returns (deleted: bool)
      modifies this
      ensures deleted <==> id in Ids(old(alerts))
      ensures alerts == Without(old(alerts), id)
      ensures current == old(current)
    {
      var filtered := Without(alerts, id);
      if |filtered| == |alerts| {
        return false;
      }
      alerts := filtered;
      return true;
    }

    /** `publish(alert_id)`: raises for an unknown id; otherwise writes the
        stored alert as the current one and returns it. */
    method Publish(id: string) returns (r: Result<AlertPacket, string>)
      modifies this
      ensures r.Failure? <==> id !in Ids(alerts)
      ensures alerts == old(alerts)
      ensures r.Failure? ==> current == old(current)
      ensures r.Success? ==> r.value == Find(alerts, id).value && current == Some(r.value)
    {
      var found := GetAlert(id);
      if found.None? {
        return Failure("Alert '" + id + "' not found");
      }
      current := found;
      return Success(found.value);
    }

    /** `get_current_alert()`. */
    method GetCurrentAlert() returns (r: Option<AlertPacket>)
      ensures r == current
    {
      return current;
    }
  }
}
