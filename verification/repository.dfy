/**
 Materialisation of the events delivered by the replicated task node into the
 map id -> Task that the board holds (App.tsx, the `.on` handler), and the
 records the board writes back to that node.

 JSON.parse and JSON.stringify of the comment list are parameters: `decode`
 returns `None` where JSON.parse throws.
 */
module Repository {
  import opened Types

  type Decoder = string -> Option<seq<Comment>>
  type Encoder = seq<Comment> -> string

  /** The comment list of an incoming record: a missing or empty blob is read
      as no comments, anything else goes through the decoder. */
  function DecodeComments(blob: Option<string>, decode: Decoder): (r: Option<seq<Comment>>)
    ensures blob.None? || blob.value == "" ==> r == Some([])
    ensures blob.Some? && blob.value != "" ==> r == decode(blob.value)
  {
    if blob.None? || blob.value == "" then Some([]) else decode(blob.value)
  }

  /** `t` carries every field of `w` except the comments. */
  predicate Carries(t: Task, w: WireTask)
  {
    && t.id == w.id && t.title == w.title && t.week == w.week && t.area == w.area
    && t.responsible == w.responsible && t.requester == w.requester
    && t.priority == w.priority && t.status == w.status && t.deliveryDate == w.deliveryDate
  }

  /** `{ ...data, comments }`: the wire record with its comments decoded. */
  function FromWire(w: WireTask, comments: seq<Comment>): (t: Task)
    ensures Carries(t, w) && t.comments == comments
  {
    Task(w.id, w.title, w.week, w.area, w.responsible, w.requester,
         w.priority, w.status, w.deliveryDate, comments)
  }

  /** `{ ...task, comments: JSON.stringify(task.comments) }`: the record written
      by a save, an update or an import. */
  function ToWire(t: Task, encode: Encoder): (w: WireTask)
    ensures Carries(t, w) && w.comments == Some(encode(t.comments))
  {
    WireTask(t.id, t.title, t.week, t.area, t.responsible, t.requester,
             t.priority, t.status, t.deliveryDate, Some(encode(t.comments)))
  }

  /** The put that stores `t` under its own id. */
  function SavePut(t: Task, encode: Encoder): Put
  {
    Put(t.id, Some(ToWire(t, encode)))
  }

  /** The puts of `ts`, one per task and in order. */
  function SavePuts(ts: seq<Task>, encode: Encoder): (puts: seq<Put>)
    ensures |puts| == |ts|
    ensures forall i :: 0 <= i < |ts| ==> puts[i].key == ts[i].id && puts[i].value == Some(ToWire(ts[i], encode))
  {
    seq(|ts|, i requires 0 <= i < |ts| => SavePut(ts[i], encode))
  }

  /** One delivery of the handler: `data == None` is the null of a deletion.
      A record whose comments cannot be decoded is dropped. No key other than
      `key` is touched. */
  function ApplyEvent(m: map<string, Task>, key: string, data: Option<WireTask>, decode: Decoder): (r: map<string, Task>)
    ensures forall k :: k != key ==> (k in r <==> k in m)
    ensures forall k :: k != key && k in r ==> r[k] == m[k]
  {
    match data
    case None => m - {key}
    case Some(w) =>
      match DecodeComments(w.comments, decode)
      case None => m
      case Some(comments) => m[key := FromWire(w, comments)]
  }

  /** Deliveries applied in order. */
  function Replay(m: map<string, Task>, puts: seq<Put>, decode: Decoder): map<string, Task>
    decreases |puts|
  {
    if puts == [] then m else Replay(ApplyEvent(m, puts[0].key, puts[0].value, decode), puts[1..], decode)
  }

  /** A key that no delivery names keeps its entry, or its absence. */
  lemma {:induction false} ReplayUntouched(m: map<string, Task>, puts: seq<Put>, decode: Decoder, k: string)
    requires forall j :: 0 <= j < |puts| ==> puts[j].key != k
    ensures SameEntry(Replay(m, puts, decode), m, k)
    decreases |puts|
  {
    if puts != [] {
      var m' := ApplyEvent(m, puts[0].key, puts[0].value, decode);
      assert forall j :: 0 <= j < |puts[1..]| ==> puts[1..][j].key != k by {
        forall j | 0 <= j < |puts[1..]| ensures puts[1..][j].key != k {
          assert puts[1..][j] == puts[j + 1];
        }
      }
      ReplayUntouched(m', puts[1..], decode, k);
    }
  }

  /** When the last delivery for a key is a null, the key ends up absent. */
  lemma {:induction false} ReplayLastDelete(m: map<string, Task>, puts: seq<Put>, decode: Decoder)
    requires puts != [] && puts[|puts| - 1].value.None?
    ensures puts[|puts| - 1].key !in Replay(m, puts, decode)
    decreases |puts|
  {
    if |puts| > 1 {
      var m' := ApplyEvent(m, puts[0].key, puts[0].value, decode);
      assert puts[1..][|puts[1..]| - 1] == puts[|puts| - 1];
      ReplayLastDelete(m', puts[1..], decode);
    }
  }

  /** A null for `key` removes `key` and keeps every other entry; when `key`
      is already absent nothing changes. */
  lemma DeleteEvent(m: map<string, Task>, key: string, decode: Decoder)
    ensures ApplyEvent(m, key, None, decode).Keys == m.Keys - {key}
    ensures key !in m ==> ApplyEvent(m, key, None, decode) == m
  {
  }

  /** A record whose comments decode is stored under `key`, with every wire
      field and the decoded comments; a missing or empty blob gives no comments. */
  lemma StoreEvent(m: map<string, Task>, key: string, w: WireTask, decode: Decoder)
    requires DecodeComments(w.comments, decode).Some?
    ensures var r := ApplyEvent(m, key, Some(w), decode);
      && r.Keys == m.Keys + {key}
      && Carries(r[key], w)
      && (w.comments.None? || w.comments == Some("") ==> r[key].comments == [])
      && (w.comments.Some? && w.comments != Some("") ==> Some(r[key].comments) == decode(w.comments.value))
  {
  }

  /** A record whose comments do not decode leaves the map as it was. */
  lemma DropUndecodable(m: map<string, Task>, key: string, w: WireTask, decode: Decoder)
    requires w.comments.Some? && w.comments.value != "" && decode(w.comments.value).None?
    ensures ApplyEvent(m, key, Some(w), decode) == m
  {
  }

  /** Delivering the same event twice in immediate succession is the same as
      delivering it once. */
  lemma RedeliveryIsNoOp(m: map<string, Task>, key: string, data: Option<WireTask>, decode: Decoder)
    ensures var once := ApplyEvent(m, key, data, decode);
      ApplyEvent(once, key, data, decode) == once
  {
  }

  /** A later event for a key overrides an earlier one, unless the later one is dropped. */
  lemma LaterEventWins(m: map<string, Task>, key: string, first: Option<WireTask>, second: Option<WireTask>, decode: Decoder)
    requires second.None? || DecodeComments(second.value.comments, decode).Some?
    ensures ApplyEvent(ApplyEvent(m, key, first, decode), key, second, decode) == ApplyEvent(m, key, second, decode)
  {
  }

  /** Events for different keys can be delivered in either order. */
  lemma DistinctKeysCommute(m: map<string, Task>, k1: string, e1: Option<WireTask>, k2: string, e2: Option<WireTask>, decode: Decoder)
    requires k1 != k2
    ensures ApplyEvent(ApplyEvent(m, k1, e1, decode), k2, e2, decode)
         == ApplyEvent(ApplyEvent(m, k2, e2, decode), k1, e1, decode)
  {
    var a1 := ApplyEvent(m, k1, e1, decode);
    var b2 := ApplyEvent(m, k2, e2, decode);
    var a := ApplyEvent(a1, k2, e2, decode);
    var b := ApplyEvent(b2, k1, e1, decode);
    SameEntryAfter(m, b2, k1, e1, decode);
    SameEntryAfter(m, a1, k2, e2, decode);
    forall k
      ensures SameEntry(a, b, k)
    {
      if k != k1 && k != k2 {
        assert SameEntry(a, a1, k) && SameEntry(a1, m, k);
        assert SameEntry(b, b2, k) && SameEntry(b2, m, k);
      } else if k == k1 {
        assert SameEntry(a, a1, k);
      } else {
        assert SameEntry(b, b2, k);
      }
    }
    MapsEqualByEntries(a, b);
  }

  lemma MapsEqualByEntries(a: map<string, Task>, b: map<string, Task>)
    requires forall k :: SameEntry(a, b, k)
    ensures a == b
  {
    forall k | k in a.Keys || k in b.Keys
      ensures k in a.Keys && k in b.Keys && a[k] == b[k]
    {
      assert SameEntry(a, b, k);
    }
    assert a.Keys == b.Keys;
  }

  /** Both maps lack `k`, or both hold the same task under it. */
  ghost predicate SameEntry(m: map<string, Task>, m': map<string, Task>, k: string)
  {
    (k in m <==> k in m') && (k in m ==> m[k] == m'[k])
  }

  /** What an event leaves under its own key depends only on what was there before. */
  lemma SameEntryAfter(m: map<string, Task>, m': map<string, Task>, key: string, data: Option<WireTask>, decode: Decoder)
    requires SameEntry(m, m', key)
    ensures SameEntry(ApplyEvent(m, key, data, decode), ApplyEvent(m', key, data, decode), key)
  {
  }

  /** The decoder reads back what the encoder wrote for `comments`. */
  predicate Readable(comments: seq<Comment>, encode: Encoder, decode: Decoder)
  {
    DecodeComments(Some(encode(comments)), decode) == Some(comments)
  }

  /** The echo of a saved task stores exactly that task under its id. */
  lemma SaveThenEcho(m: map<string, Task>, t: Task, encode: Encoder, decode: Decoder)
    requires Readable(t.comments, encode, decode)
    ensures ApplyEvent(m, t.id, SavePut(t, encode).value, decode) == m[t.id := t]
  {
  }

  predicate DistinctIds(ts: seq<Task>)
  {
    forall i, j :: 0 <= i < j < |ts| ==> ts[i].id != ts[j].id
  }

  /** The echoes of a batch of saves with distinct ids store every task of the
      batch under its id and leave every other key alone. */
  lemma ReplaySaves(m: map<string, Task>, ts: seq<Task>, encode: Encoder, decode: Decoder)
    requires DistinctIds(ts)
    requires forall i :: 0 <= i < |ts| ==> Readable(ts[i].comments, encode, decode)
    ensures var r := Replay(m, SavePuts(ts, encode), decode);
      && (forall i :: 0 <= i < |ts| ==> ts[i].id in r && r[ts[i].id] == ts[i])
      && (forall k :: (forall i :: 0 <= i < |ts| ==> ts[i].id != k) ==> SameEntry(r, m, k))
  {
    ReplayStoresEach(m, ts, encode, decode);
    var puts := SavePuts(ts, encode);
    forall k | forall i :: 0 <= i < |ts| ==> ts[i].id != k
      ensures SameEntry(Replay(m, puts, decode), m, k)
    {
      ReplayUntouched(m, puts, decode, k);
    }
  }

  /** Each task of a batch with distinct ids is found under its id after the echoes. */
  lemma {:induction false} ReplayStoresEach(m: map<string, Task>, ts: seq<Task>, encode: Encoder, decode: Decoder)
    requires DistinctIds(ts)
    requires forall i :: 0 <= i < |ts| ==> Readable(ts[i].comments, encode, decode)
    ensures var r := Replay(m, SavePuts(ts, encode), decode);
      forall i :: 0 <= i < |ts| ==> ts[i].id in r && r[ts[i].id] == ts[i]
    decreases |ts|
  {
    if ts != [] {
      var puts := SavePuts(ts, encode);
      var k0 := ts[0].id;
      var m' := ApplyEvent(m, k0, Some(ToWire(ts[0], encode)), decode);
      SaveThenEcho(m, ts[0], encode, decode);
      var tail := SavePuts(ts[1..], encode);
      assert puts[1..] == tail;
      var r := Replay(m', tail, decode);
      assert Replay(m, puts, decode) == r;
      ReplayStoresEach(m', ts[1..], encode, decode);
      forall j | 0 <= j < |tail| ensures tail[j].key != k0 {
        assert ts[1..][j] == ts[j + 1];
      }
      ReplayUntouched(m', tail, decode, k0);
      forall i | 0 < i < |ts|
        ensures ts[i].id in r && r[ts[i].id] == ts[i]
      {
        assert ts[i] == ts[1..][i - 1];
      }
    }
  }
}
