/**
 * The generated project's package manifest as an insertion-ordered object,
 * and the overlay of the collected metadata onto it (create.js:152, 166).
 */
module Manifest {
  import opened Wrappers

  /** A JSON value as the manifest holds it (numbers are kept integral). */
  datatype Json =
    | JNull
    | JBool(b: bool)
    | JNumber(n: int)
    | JString(s: string)
    | JArray(items: seq<Json>)
    | JObject(members: seq<(string, Json)>)

  /** The members of a JavaScript object, in property order. */
  type Entries = seq<(string, Json)>

  function KeysOf(e: Entries): seq<string>
  {
    seq(|e|, i requires 0 <= i < |e| => e[i].0)
  }

  predicate DistinctKeys(e: Entries)
  {
    forall i, j :: 0 <= i < j < |e| ==> e[i].0 != e[j].0
  }

  /** Reading a property: the value of the first member named `k`. */
  function Lookup(e: Entries, k: string): Option<Json>
  {
    if e == [] then None
    else if e[0].0 == k then Some(e[0].1)
    else Lookup(e[1..], k)
  }

  /**
   * `obj[k] = v`: a property that exists keeps its place and takes the new
   * value; a new property goes to the end.
   */
  function Assign(e: Entries, k: string, v: Json): Entries
  {
    if e == [] then [(k, v)]
    else if e[0].0 == k then [(k, v)] + e[1..]
    else [e[0]] + Assign(e[1..], k, v)
  }

  /** The assignments `obj[k] = v` for each update, in order. */
  function Overlay(e: Entries, updates: Entries): Entries
    decreases |updates|
  {
    if updates == [] then e
    else Overlay(Assign(e, updates[0].0, updates[0].1), updates[1..])
  }

  /** The keys of `ks` not yet in `present`, in order and without repeats. */
  function NewKeys(present: seq<string>, ks: seq<string>): seq<string>
    decreases |ks|
  {
    if ks == [] then []
    else if ks[0] in present then NewKeys(present, ks[1..])
    else [ks[0]] + NewKeys(present + [ks[0]], ks[1..])
  }

  /** The value the last update of `k` assigns, if any. */
  function UpdateFor(updates: Entries, k: string): Option<Json>
    decreases |updates|
  {
    if updates == [] then None
    else match UpdateFor(updates[1..], k)
      case Some(v) => Some(v)
      case None => if updates[0].0 == k then Some(updates[0].1) else None
  }

  /** Reading after `obj[k] = v` sees `v` at `k` and the old value elsewhere. */
  lemma {:induction false} LookupAssign(e: Entries, k: string, v: Json, j: string)
    ensures Lookup(Assign(e, k, v), j) == if j == k then Some(v) else Lookup(e, j)
  {
    if e != [] && e[0].0 != k {
      LookupAssign(e[1..], k, v, j);
      assert Assign(e, k, v)[1..] == Assign(e[1..], k, v);
    }
  }

  /**
   * `obj[k] = v` on an object: an existing member keeps its position and
   * every other member its position and value; a missing key is appended.
   */
  lemma {:induction false} AssignShape(e: Entries, k: string, v: Json)
    requires DistinctKeys(e)
    ensures var r := Assign(e, k, v);
      && DistinctKeys(r)
      && (k in KeysOf(e) ==>
            |r| == |e| && forall i :: 0 <= i < |e| ==> r[i] == if e[i].0 == k then (k, v) else e[i])
      && (k !in KeysOf(e) ==> r == e + [(k, v)])
  {
    if e != [] {
      var r := Assign(e, k, v);
      var tail := e[1..];
      assert KeysOf(e) == [e[0].0] + KeysOf(tail);
      if e[0].0 == k {
        forall i | 0 < i < |e| ensures e[i].0 != k {
          assert e[0].0 != e[i].0;
        }
      } else {
        AssignShape(tail, k, v);
        var rt := Assign(tail, k, v);
        assert r == [e[0]] + rt;
        forall j | 0 <= j < |rt| ensures rt[j].0 != e[0].0 {
          if k in KeysOf(tail) {
            assert rt[j].0 == tail[j].0;
            assert e[0].0 != e[j + 1].0;
          } else if j < |tail| {
            assert e[0].0 != e[j + 1].0;
          }
        }
      }
    }
  }

  /** The object seen through Lookup after an overlay: updates win, the rest is kept. */
  lemma {:induction false} LookupOverlay(e: Entries, updates: Entries, k: string)
    ensures Lookup(Overlay(e, updates), k) ==
      match UpdateFor(updates, k)
      case Some(v) => Some(v)
      case None => Lookup(e, k)
    decreases |updates|
  {
    if updates != [] {
      var e1 := Assign(e, updates[0].0, updates[0].1);
      LookupOverlay(e1, updates[1..], k);
      LookupAssign(e, updates[0].0, updates[0].1, k);
    }
  }

  /**
   * The overlay's shape: every member of the original object keeps its
   * position, taking the value of the last update of its key if there is
   * one; keys the object did not have are appended, in update order.
   */
  lemma {:induction false} OverlayShape(e: Entries, updates: Entries)
    requires DistinctKeys(e)
    ensures var r := Overlay(e, updates);
      && DistinctKeys(r)
      && KeysOf(r) == KeysOf(e) + NewKeys(KeysOf(e), KeysOf(updates))
      && forall i :: 0 <= i < |e| ==> r[i] == (e[i].0, UpdateFor(updates, e[i].0).GetOr(e[i].1))
    decreases |updates|
  {
    if updates != [] {
      var k, v := updates[0].0, updates[0].1;
      var e1 := Assign(e, k, v);
      AssignShape(e, k, v);
      OverlayShape(e1, updates[1..]);
      var r := Overlay(e, updates);
      assert KeysOf(updates) == [k] + KeysOf(updates[1..]);
      if k in KeysOf(e) {
        assert KeysOf(e1) == KeysOf(e);
      } else {
        assert KeysOf(e1) == KeysOf(e) + [k];
      }
      forall i | 0 <= i < |e|
        ensures r[i] == (e[i].0, UpdateFor(updates, e[i].0).GetOr(e[i].1))
      {
        assert KeysOf(e)[i] == e[i].0;
        assert e1[i] == if e[i].0 == k then (k, v) else e[i];
      }
    }
  }

  /** The pairs `(key, conf[key])` for the keys of a list, in list order. */
  function Pairs(keys: seq<string>, conf: map<string, Json>): (ps: Entries)
    requires forall i :: 0 <= i < |keys| ==> keys[i] in conf
    ensures KeysOf(ps) == keys
  {
    seq(|keys|, i requires 0 <= i < |keys| => (keys[i], conf[keys[i]]))
  }

  /** With distinct update keys, the update for a listed key is its value in `conf`. */
  lemma {:induction false} UpdateForPairs(keys: seq<string>, conf: map<string, Json>, k: string)
    requires forall i :: 0 <= i < |keys| ==> keys[i] in conf
    requires forall i, j :: 0 <= i < j < |keys| ==> keys[i] != keys[j]
    ensures UpdateFor(Pairs(keys, conf), k) == if k in keys then Some(conf[k]) else None
    decreases |keys|
  {
    if keys != [] {
      var ps := Pairs(keys, conf);
      assert ps[1..] == Pairs(keys[1..], conf);
      UpdateForPairs(keys[1..], conf, k);
      if k == keys[0] {
        assert k !in keys[1..] by {
          forall j | 0 <= j < |keys[1..]| ensures keys[1..][j] != k {
            assert keys[0] != keys[j + 1];
          }
        }
      }
    }
  }

  /**
   * Assigning `obj[k] = conf[k]` for distinct keys `keys`: the keys listed
   * take their `conf` values and everything else stays; old members keep
   * their positions and new keys are appended in list order.
   */
  lemma OverlayFromConf(e: Entries, keys: seq<string>, conf: map<string, Json>)
    requires DistinctKeys(e)
    requires forall i :: 0 <= i < |keys| ==> keys[i] in conf
    requires forall i, j :: 0 <= i < j < |keys| ==> keys[i] != keys[j]
    ensures var r := Overlay(e, Pairs(keys, conf));
      && DistinctKeys(r)
      && KeysOf(r) == KeysOf(e) + NewKeys(KeysOf(e), keys)
      && (forall i :: 0 <= i < |e| ==> r[i] == (e[i].0, if e[i].0 in keys then conf[e[i].0] else e[i].1))
      && (forall k :: Lookup(r, k) == if k in keys then Some(conf[k]) else Lookup(e, k))
  {
    var updates := Pairs(keys, conf);
    OverlayShape(e, updates);
    forall k ensures UpdateFor(updates, k) == if k in keys then Some(conf[k]) else None {
      UpdateForPairs(keys, conf, k);
    }
    forall k ensures Lookup(Overlay(e, updates), k) == if k in keys then Some(conf[k]) else Lookup(e, k) {
      LookupOverlay(e, updates, k);
    }
  }

  /** The members of an object held as a key order and a key-to-value map. */
  function EntriesOf(keys: seq<string>, values: map<string, Json>): Entries
    requires forall i :: 0 <= i < |keys| ==> keys[i] in values
  {
    seq(|keys|, i requires 0 <= i < |keys| => (keys[i], values[keys[i]]))
  }

  /**
   * The manifest object `pkg` loaded from package.json: its property order
   * and its property values. Properties are assigned in place.
   */
  class Document {
    var keys: seq<string>
    var values: map<string, Json>

    ghost predicate Valid()
      reads this
    {
      && (forall i, j :: 0 <= i < j < |keys| ==> keys[i] != keys[j])
      && (forall k :: k in values <==> k in keys)
    }

    /** The object's members in property order. */
    function Entries(): (e: Entries)
      reads this
      requires Valid()
      ensures DistinctKeys(e) && KeysOf(e) == keys
    {
      EntriesOf(keys, values)
    }

    /** The object as parsed from the manifest text. */
    constructor (e: Entries)
      requires DistinctKeys(e)
      ensures Valid() && Entries() == e
    {
      keys := KeysOf(e);
      values := map i | 0 <= i < |e| :: e[i].0 := e[i].1;
      new;
      forall i | 0 <= i < |e| ensures values[e[i].0] == e[i].1 {
        var j :| 0 <= j < |e| && e[j].0 == e[i].0 && values[e[i].0] == e[j].1;
        assert i == j;
      }
      assert forall k :: k in values <==> k in keys by {
        forall k ensures k in values <==> k in keys {
          if k in keys {
            var i :| 0 <= i < |keys| && keys[i] == k;
            assert e[i].0 == k;
          }
          if k in values {
            var i :| 0 <= i < |e| && e[i].0 == k;
            assert keys[i] == k;
          }
        }
      }
      assert EntriesOf(keys, values) == e;
    }

    /** `pkg[k] = v`. */
    method Set(k: string, v: Json)
      requires Valid()
      modifies this
      ensures Valid()
      ensures Entries() == Assign(old(Entries()), k, v)
    {
      ghost var e := Entries();
      AssignShape(e, k, v);
      if k in values {
        values := values[k := v];
      } else {
        keys := keys + [k];
        values := values[k := v];
      }
    }

    /** `keys.forEach(key => { pkg[key] = conf[key]; })` (create.js:166). */
    method OverlayFrom(overlayKeys: seq<string>, conf: map<string, Json>)
      requires Valid()
      requires forall i :: 0 <= i < |overlayKeys| ==> overlayKeys[i] in conf
      modifies this
      ensures Valid()
      ensures Entries() == Overlay(old(Entries()), Pairs(overlayKeys, conf))
    {
      ghost var updates := Pairs(overlayKeys, conf);
      for n := 0 to |overlayKeys|
        invariant Valid()
        invariant Overlay(Entries(), updates[n..]) == Overlay(old(Entries()), updates)
      {
        assert updates[n..][1..] == updates[n + 1..];
        Set(overlayKeys[n], conf[overlayKeys[n]]);
      }
    }
  }
}
