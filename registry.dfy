/**
 * The `connections` Map of server.js. A JavaScript Map keeps its keys in
 * insertion order, and both the close handler and the lookup by socket stop
 * at the first match, so the Map is modelled as the sequence of its
 * (key, record) pairs in that order. The functions here are the Map
 * operations the server uses, and the three scans it writes over them.
 */
module Registry {
  import opened Messages

  /** A stored connection: its socket, the role it claimed and its id (`connectedAt` is left out). */
  datatype Record = Record(ws: Socket, role: string, id: string)

  /** One key of the Map with its record. */
  type Entry = (string, Record)

  predicate HasKey(m: seq<Entry>, k: string) {
    exists i :: 0 <= i < |m| && m[i].0 == k
  }

  /** A Map never holds a key twice. */
  predicate UniqueKeys(m: seq<Entry>) {
    forall i, j :: 0 <= i < j < |m| ==> m[i].0 != m[j].0
  }

  /** `connections.get(k)`: the record stored under k, if any. */
  function Get(m: seq<Entry>, k: string): (r: Option<Record>)
    ensures r.None? <==> !HasKey(m, k)
    ensures r.Some? ==> (k, r.value) in m
    ensures UniqueKeys(m) ==> forall i :: 0 <= i < |m| && m[i].0 == k ==> r == Some(m[i].1)
  {
    if |m| == 0 then None
    else if m[0].0 == k then Some(m[0].1)
    else
      assert forall i :: 1 <= i < |m| ==> m[i] == m[1..][i - 1];
      Get(m[1..], k)
  }

  /**
   * `connections.set(k, v)`: a present key keeps its position and gets the
   * new record; an absent key is appended at the end.
   */
  function Set(m: seq<Entry>, k: string, v: Record): (r: seq<Entry>)
    ensures |r| == if HasKey(m, k) then |m| else |m| + 1
    ensures !HasKey(m, k) ==> r == m + [(k, v)]
    ensures forall i :: 0 <= i < |m| ==> r[i] == (if m[i].0 == k then (k, v) else m[i])
  {
    if HasKey(m, k) then seq(|m|, i requires 0 <= i < |m| => if m[i].0 == k then (k, v) else m[i])
    else m + [(k, v)]
  }

  /** After `set(k, v)`, `get(k)` is v, every other key reads as before, and no key is doubled. */
  lemma SetGet(m: seq<Entry>, k: string, v: Record)
    requires UniqueKeys(m)
    ensures Get(Set(m, k, v), k) == Some(v)
    ensures forall k' :: k' != k ==> Get(Set(m, k, v), k') == Get(m, k')
    ensures UniqueKeys(Set(m, k, v))
  {
    var r := Set(m, k, v);
    assert forall i :: 0 <= i < |r| ==> r[i].0 == (if i < |m| then m[i].0 else k);
    assert UniqueKeys(r);
    if HasKey(m, k) {
      var i :| 0 <= i < |m| && m[i].0 == k;
      assert r[i].0 == k;
    } else {
      assert r[|m|].0 == k;
    }
    forall k' | k' != k
      ensures Get(r, k') == Get(m, k')
    {
      assert HasKey(r, k') <==> HasKey(m, k');
    }
  }

  /** `connections.delete(k)`: removes the pair with key k; a missing key changes nothing. */
  function Delete(m: seq<Entry>, k: string): (r: seq<Entry>)
    ensures !HasKey(m, k) ==> r == m
  {
    if |m| == 0 then []
    else if m[0].0 == k then m[1..]
    else
      assert forall i :: 1 <= i < |m| ==> m[i] == m[1..][i - 1];
      [m[0]] + Delete(m[1..], k)
  }

  /** In a Map, `delete(k)` removes exactly the pair at k's position and keeps the others in order. */
  lemma {:induction false} DeleteAt(m: seq<Entry>, k: string, i: nat)
    requires UniqueKeys(m) && i < |m| && m[i].0 == k
    ensures Delete(m, k) == m[..i] + m[i + 1..]
    decreases |m|
  {
    if i > 0 {
      var tail := m[1..];
      assert m[0].0 != k;
      assert tail[i - 1] == m[i];
      assert UniqueKeys(tail) by {
        assert forall a :: 0 <= a < |tail| ==> tail[a] == m[a + 1];
      }
      DeleteAt(tail, k, i - 1);
      assert [m[0]] + tail[..i - 1] == m[..i];
      assert tail[i..] == m[i + 1..];
    }
  }

  /** The position of the first pair, in insertion order, whose record holds socket ws. */
  function FirstWithSocket(m: seq<Entry>, ws: Socket): (r: Option<nat>)
    ensures r.Some? ==> r.value < |m| && m[r.value].1.ws == ws
    ensures r.Some? ==> forall j :: 0 <= j < r.value ==> m[j].1.ws != ws
    ensures r.None? ==> forall j :: 0 <= j < |m| ==> m[j].1.ws != ws
  {
    if |m| == 0 then None
    else if m[0].1.ws == ws then Some(0)
    else
      assert forall i :: 1 <= i < |m| ==> m[i] == m[1..][i - 1];
      match FirstWithSocket(m[1..], ws)
      case None => None
      case Some(i) => Some(i + 1)
  }

  /** `findConnectionByWebSocket`: the first record whose socket is ws. */
  function FindByWebSocket(m: seq<Entry>, ws: Socket): (r: Option<Record>)
    ensures r.None? <==> forall j :: 0 <= j < |m| ==> m[j].1.ws != ws
    ensures r.Some? ==>
      && r.value.ws == ws
      && exists i :: 0 <= i < |m| && m[i].1 == r.value && forall j :: 0 <= j < i ==> m[j].1.ws != ws
  {
    match FirstWithSocket(m, ws)
    case None => None
    case Some(i) => Some(m[i].1)
  }

  /**
   * The close handler: delete the key of the first pair whose socket is ws;
   * only that one pair goes, every other pair stays where it was.
   */
  function Closed(m: seq<Entry>, ws: Socket): (r: seq<Entry>)
    ensures UniqueKeys(m) ==>
      match FirstWithSocket(m, ws)
      case None => r == m
      case Some(i) => r == m[..i] + m[i + 1..]
    ensures UniqueKeys(m) ==> UniqueKeys(r) && forall e :: e in r ==> e in m
  {
    match FirstWithSocket(m, ws)
    case None => m
    case Some(i) =>
      RemoveAt(m, i);
      assert UniqueKeys(m) ==> Delete(m, m[i].0) == m[..i] + m[i + 1..] by {
        if UniqueKeys(m) {
          DeleteAt(m, m[i].0, i);
        }
      }
      Delete(m, m[i].0)
  }

  /** Taking one pair out of a Map leaves a Map whose pairs were all in the original. */
  lemma RemoveAt(m: seq<Entry>, i: nat)
    requires i < |m|
    ensures UniqueKeys(m) ==> UniqueKeys(m[..i] + m[i + 1..])
    ensures UniqueKeys(m) ==> !HasKey(m[..i] + m[i + 1..], m[i].0)
    ensures forall e :: e in m[..i] + m[i + 1..] ==> e in m
  {
    var r := m[..i] + m[i + 1..];
    assert forall j :: 0 <= j < |r| ==> r[j] == m[if j < i then j else j + 1];
  }

  /** The sweep: the pairs whose socket is open, in their original order. */
  function Live(m: seq<Entry>, open: set<Socket>): (r: seq<Entry>)
    ensures |r| <= |m|
    ensures forall k :: 0 <= k < |r| ==> r[k] in m && r[k].1.ws in open
    decreases |m|
  {
    if m == [] then []
    else
      var init, last := m[..|m| - 1], m[|m| - 1];
      assert m == init + [last];
      Live(init, open) + (if last.1.ws in open then [last] else [])
  }

  /**
   * The sweep keeps exactly the pairs whose socket is open, so it never
   * makes the Map longer and never doubles a key.
   */
  lemma {:induction false} LiveMembers(m: seq<Entry>, open: set<Socket>)
    ensures |Live(m, open)| <= |m|
    ensures forall e :: e in Live(m, open) <==> e in m && e.1.ws in open
    ensures UniqueKeys(m) ==> UniqueKeys(Live(m, open))
    decreases |m|
  {
    if m != [] {
      var init, last := m[..|m| - 1], m[|m| - 1];
      assert m == init + [last];
      LiveMembers(init, open);
      var kept := Live(init, open);
      assert forall i :: 0 <= i < |kept| ==> kept[i] in init;
    }
  }

  /** Sweeping one more pair keeps it exactly when its socket is open. */
  lemma LiveSnoc(m: seq<Entry>, k: nat, open: set<Socket>)
    requires k < |m|
    ensures Live(m[..k + 1], open) == Live(m[..k], open) + (if m[k].1.ws in open then [m[k]] else [])
  {
    assert m[..k + 1][..k] == m[..k];
  }

  /**
   * One step of the sweep's loop, which deletes while it iterates: with the
   * pairs before i already swept from the first k pairs of the original and
   * the rest untouched, deleting pair i (closed socket) or moving past it
   * (open socket) keeps that so for k + 1.
   */
  lemma SweepStep(c: seq<Entry>, i: nat, o: seq<Entry>, k: nat, open: set<Socket>)
    requires i < |c| && k < |o|
    requires c[..i] == Live(o[..k], open) && c[i..] == o[k..]
    ensures c[i].1.ws !in open ==>
      var d := c[..i] + c[i + 1..];
      d[..i] == Live(o[..k + 1], open) && d[i..] == o[k + 1..]
    ensures c[i].1.ws in open ==>
      c[..i + 1] == Live(o[..k + 1], open) && c[i + 1..] == o[k + 1..]
  {
    LiveSnoc(o, k, open);
    assert o[k] == c[i] by {
      assert c[i..][0] == o[k..][0];
    }
    assert c[i + 1..] == c[i..][1..];
    assert o[k + 1..] == o[k..][1..];
    if c[i].1.ws !in open {
      var d := c[..i] + c[i + 1..];
      assert d[..i] == c[..i];
      assert d[i..] == c[i + 1..];
    } else {
      assert c[..i + 1] == c[..i] + [c[i]];
    }
  }

  /** Sweeping a concatenation sweeps each part. */
  lemma {:induction false} LiveAppend(a: seq<Entry>, b: seq<Entry>, open: set<Socket>)
    ensures Live(a + b, open) == Live(a, open) + Live(b, open)
    decreases |b|
  {
    if b == [] {
      assert a + b == a;
    } else {
      var init, last := b[..|b| - 1], b[|b| - 1];
      assert (a + b)[..|a + b| - 1] == a + init;
      assert (a + b)[|a + b| - 1] == last;
      LiveAppend(a, init, open);
    }
  }

  /** A second sweep with the same open sockets removes nothing more. */
  lemma {:induction false} LiveIdempotent(m: seq<Entry>, open: set<Socket>)
    ensures Live(Live(m, open), open) == Live(m, open)
    decreases |m|
  {
    if m != [] {
      var init, last := m[..|m| - 1], m[|m| - 1];
      var tail := if last.1.ws in open then [last] else [];
      LiveIdempotent(init, open);
      LiveAppend(Live(init, open), tail, open);
      if tail != [] {
        assert Live(tail, open) == Live([], open) + [last];
      }
    }
  }
}
