/**
  * The hub's observable side effects as a trace of events, the snapshot a
  * teardown loop iterates over, and the shape of the trace that disposing
  * the hub appends.
  */
module Lifecycle {
  import opened Hardware

  /** One side effect on a hardware object. */
  datatype Event =
    | PlateConstructed(plate: Plate)
    | DeviceCreated(device: I2cDevice)
    | Unsubscribed
    | PlateDisposed(plate: Plate)
    | DeviceDisposed(device: I2cDevice)
    | ClientDisposed
    | ControllerDisposed

  predicate Distinct<T(==)>(s: seq<T>) {
    forall i, j :: 0 <= i < j < |s| ==> s[i] != s[j]
  }

  /** No two keys share a value. */
  ghost predicate Injective<K, V>(m: map<K, V>) {
    forall k1, k2 :: k1 in m && k2 in m && m[k1] == m[k2] ==> k1 == k2
  }

  /**
    * A list of the values of `m`, one per key, in no particular order
    * (`Values.ToList()` on the dictionary); `keys` gives the key each
    * element was read from.
    */
  method SnapshotValues<K, V(==)>(m: map<K, V>) returns (s: seq<V>, ghost keys: seq<K>)
    ensures |s| == |m| == |keys|
    ensures Distinct(keys) && forall k :: k in m <==> k in keys
    ensures forall i :: 0 <= i < |s| ==> s[i] == m[keys[i]]
    ensures forall v :: v in s <==> v in m.Values
    ensures Injective(m) ==> Distinct(s)
  {
    s := [];
    keys := [];
    var rest := m.Keys;
    while rest != {}
      invariant rest <= m.Keys
      invariant |keys| == |s|
      invariant |rest| + |s| == |m|
      invariant forall i :: 0 <= i < |keys| ==> keys[i] in m && keys[i] !in rest && s[i] == m[keys[i]]
      invariant forall k :: k in m && k !in rest ==> k in keys
      invariant Distinct(keys)
      decreases |rest|
    {
      var k :| k in rest;
      s := s + [m[k]];
      keys := keys + [k];
      rest := rest - {k};
    }
    forall v | v in m.Values
      ensures v in s
    {
      var k :| k in m && m[k] == v;
      var i :| 0 <= i < |keys| && keys[i] == k;
      assert s[i] == v;
    }
  }

  /** One disposal event per plate, in order. */
  function PlateDisposals(ps: seq<Plate>): (es: seq<Event>)
    ensures |es| == |ps|
    ensures forall i :: 0 <= i < |ps| ==> es[i] == PlateDisposed(ps[i])
  {
    if ps == [] then [] else [PlateDisposed(ps[0])] + PlateDisposals(ps[1..])
  }

  /** One disposal event per device, in order. */
  function DeviceDisposals(ds: seq<I2cDevice>): (es: seq<Event>)
    ensures |es| == |ds|
    ensures forall i :: 0 <= i < |ds| ==> es[i] == DeviceDisposed(ds[i])
  {
    if ds == [] then [] else [DeviceDisposed(ds[0])] + DeviceDisposals(ds[1..])
  }

  lemma AppendAssociates<T>(a: seq<T>, b: seq<T>, c: seq<T>)
    ensures a + (b + c) == (a + b) + c
  {
  }

  lemma PlateDisposalsSnoc(ps: seq<Plate>, p: Plate)
    ensures PlateDisposals(ps + [p]) == PlateDisposals(ps) + [PlateDisposed(p)]
  {
  }

  lemma DeviceDisposalsSnoc(ds: seq<I2cDevice>, d: I2cDevice)
    ensures DeviceDisposals(ds + [d]) == DeviceDisposals(ds) + [DeviceDisposed(d)]
  {
  }

  /**
    * What disposing the hub appends, given the order the two snapshots were
    * iterated in: unsubscribe, the plates, the devices, the client, the
    * controller.
    */
  function TeardownTrace(ps: seq<Plate>, ds: seq<I2cDevice>): seq<Event> {
    [Unsubscribed] + PlateDisposals(ps) + DeviceDisposals(ds) + [ClientDisposed, ControllerDisposed]
  }

  /** Appending the teardown's events one by one to `e` appends the teardown trace. */
  lemma TeardownAppends(e: seq<Event>, ps: seq<Plate>, ds: seq<I2cDevice>)
    ensures e + [Unsubscribed] + PlateDisposals(ps) + DeviceDisposals(ds) + [ClientDisposed] + [ControllerDisposed]
            == e + TeardownTrace(ps, ds)
  {
  }

  /** The stage of the hub's life an event belongs to; teardown stages come in this order. */
  function Stage(e: Event): nat {
    match e
    case PlateConstructed(_) => 0
    case DeviceCreated(_) => 0
    case Unsubscribed => 1
    case PlateDisposed(_) => 2
    case DeviceDisposed(_) => 3
    case ClientDisposed => 4
    case ControllerDisposed => 5
  }

  /** Without duplicates, each element occurs once. */
  lemma {:induction false} DistinctOccursOnce<T>(s: seq<T>, x: T)
    requires Distinct(s)
    ensures multiset(s)[x] == if x in s then 1 else 0
    decreases |s|
  {
    if s != [] {
      assert s == [s[0]] + s[1..];
      assert Distinct(s[1..]) by {
        forall i, j | 0 <= i < j < |s[1..]| ensures s[1..][i] != s[1..][j] {
          assert s[1..][i] == s[i + 1] && s[1..][j] == s[j + 1];
        }
      }
      DistinctOccursOnce(s[1..], x);
      if x == s[0] {
        assert x !in s[1..] by {
          forall i | 0 <= i < |s[1..]| ensures s[1..][i] != x {
            assert s[1..][i] == s[i + 1];
          }
        }
      }
    }
  }

  /** A plate is disposed as many times as it occurs in the snapshot. */
  lemma {:induction false} PlateDisposalsCount(ps: seq<Plate>, e: Event)
    ensures multiset(PlateDisposals(ps))[e] == if e.PlateDisposed? then multiset(ps)[e.plate] else 0
    decreases |ps|
  {
    if ps != [] {
      assert ps == [ps[0]] + ps[1..];
      assert PlateDisposals(ps) == [PlateDisposed(ps[0])] + PlateDisposals(ps[1..]);
      PlateDisposalsCount(ps[1..], e);
    }
  }

  /** A device is disposed as many times as it occurs in the snapshot. */
  lemma {:induction false} DeviceDisposalsCount(ds: seq<I2cDevice>, e: Event)
    ensures multiset(DeviceDisposals(ds))[e] == if e.DeviceDisposed? then multiset(ds)[e.device] else 0
    decreases |ds|
  {
    if ds != [] {
      assert ds == [ds[0]] + ds[1..];
      assert DeviceDisposals(ds) == [DeviceDisposed(ds[0])] + DeviceDisposals(ds[1..]);
      DeviceDisposalsCount(ds[1..], e);
    }
  }

  /** The multiset of the teardown trace, split by where each part comes from. */
  lemma TeardownMultiset(ps: seq<Plate>, ds: seq<I2cDevice>)
    ensures multiset(TeardownTrace(ps, ds)) == multiset([Unsubscribed]) + multiset(PlateDisposals(ps))
              + multiset(DeviceDisposals(ds)) + multiset([ClientDisposed, ControllerDisposed])
  {
  }

  /** Over a duplicate-free plate snapshot, teardown disposes each snapshot plate once and no other plate. */
  lemma TeardownDisposesEachPlateOnce(ps: seq<Plate>, ds: seq<I2cDevice>, p: Plate)
    requires Distinct(ps)
    ensures multiset(TeardownTrace(ps, ds))[PlateDisposed(p)] == if p in ps then 1 else 0
  {
    TeardownMultiset(ps, ds);
    PlateDisposalsCount(ps, PlateDisposed(p));
    DeviceDisposalsCount(ds, PlateDisposed(p));
    DistinctOccursOnce(ps, p);
  }

  /** Over a duplicate-free device snapshot, teardown disposes each snapshot handle once and no other handle. */
  lemma TeardownDisposesEachDeviceOnce(ps: seq<Plate>, ds: seq<I2cDevice>, d: I2cDevice)
    requires Distinct(ds)
    ensures multiset(TeardownTrace(ps, ds))[DeviceDisposed(d)] == if d in ds then 1 else 0
  {
    TeardownMultiset(ps, ds);
    PlateDisposalsCount(ps, DeviceDisposed(d));
    DeviceDisposalsCount(ds, DeviceDisposed(d));
    DistinctOccursOnce(ds, d);
  }

  /** Teardown unsubscribes, disposes the client and disposes the controller exactly once each. */
  lemma TeardownReleasesHubResourcesOnce(ps: seq<Plate>, ds: seq<I2cDevice>)
    ensures multiset(TeardownTrace(ps, ds))[Unsubscribed] == 1
    ensures multiset(TeardownTrace(ps, ds))[ClientDisposed] == 1
    ensures multiset(TeardownTrace(ps, ds))[ControllerDisposed] == 1
  {
    TeardownMultiset(ps, ds);
    PlateDisposalsCount(ps, Unsubscribed);
    DeviceDisposalsCount(ds, Unsubscribed);
    PlateDisposalsCount(ps, ClientDisposed);
    DeviceDisposalsCount(ds, ClientDisposed);
    PlateDisposalsCount(ps, ControllerDisposed);
    DeviceDisposalsCount(ds, ControllerDisposed);
  }

  /**
    * Teardown runs in stage order: it starts by unsubscribing, every plate is
    * disposed before every device, and it ends with the client and then the
    * controller.
    */
  lemma TeardownInStageOrder(ps: seq<Plate>, ds: seq<I2cDevice>)
    ensures forall i, j :: 0 <= i <= j < |TeardownTrace(ps, ds)| ==>
              Stage(TeardownTrace(ps, ds)[i]) <= Stage(TeardownTrace(ps, ds)[j])
    ensures TeardownTrace(ps, ds)[0] == Unsubscribed
    ensures TeardownTrace(ps, ds)[|TeardownTrace(ps, ds)| - 2] == ClientDisposed
    ensures TeardownTrace(ps, ds)[|TeardownTrace(ps, ds)| - 1] == ControllerDisposed
  {
    var t := TeardownTrace(ps, ds);
    var np, nd := |ps|, |ds|;
    forall i | 0 <= i < |t|
      ensures Stage(t[i]) == if i == 0 then 1 else if i <= np then 2 else if i <= np + nd then 3
                             else if i == np + nd + 1 then 4 else 5
    {
      if 1 <= i <= np {
        assert t[i] == PlateDisposals(ps)[i - 1];
      } else if np < i <= np + nd {
        assert t[i] == DeviceDisposals(ds)[i - 1 - np];
      }
    }
  }
}
