/** The journal's entry bookkeeping in the browser (mysite/static/js/storage.js):
    entries kept under one localStorage key are merged with the entries the Flask API
    returns, and saves and deletes are routed to one side or the other. */
module JournalStorage {
  import opened Seqs
  import ReflectionsApi

  type Record = ReflectionsApi.Record

  /** A journal entry as the page holds it. `source` is the routing tag: 'browser' for
      entries kept in localStorage, 'python' for entries served by the Flask API. */
  datatype Entry = Entry(
    id: int,
    title: string,
    content: Option<string>,  // None: the API record had neither content nor reflection
    date: Option<string>,
    time: string,
    source: string)

  function EntryId(e: Entry): int {
    e.id
  }

  /** The requests the manager sends to the Flask API. */
  datatype ApiCall =
    | GetReflections                              // GET /api/reflections
    | PostReflection(title: string, content: string)  // POST /api/reflections
    | DeleteReflection(id: int)                   // DELETE /api/reflections/<id>

  /** How a POST or DELETE fetch ended: the promise rejected, or it resolved with `ok`. */
  datatype Reply = Rejected | Resolved(ok: bool)

  /** How the GET fetch ended. `body` is None when `response.json()` throws or the
      parsed value is not an array (so `.map` throws). */
  datatype ListReply = ListRejected | ListResolved(ok: bool, body: Option<seq<Record>>)

  /** JavaScript truthiness of an optional string field: absent and "" are falsy. */
  predicate Truthy(s: Option<string>) {
    s.Some? && s.value != ""
  }

  // ---------------------------------------------------------------------------
  // loadJSONEntries: normalising what the API sends

  /** The per-record mapping of `loadJSONEntries`: fields the API left out or left
      empty get their defaults. */
  function Normalize(r: Record): (e: Entry)
    requires r.id.Some?  // parseInt(entry.id) is a number
    ensures e.id == r.id.value && e.date == r.date && e.time == r.time.GetOr("")
    ensures e.title != "" && e.source != ""
    ensures Truthy(r.title) ==> e.title == r.title.value
    ensures !Truthy(r.title) ==> e.title == "API Entry"
    ensures Truthy(r.content) ==> e.content == r.content
    ensures !Truthy(r.content) ==> e.content == r.reflection
    ensures Truthy(r.source) ==> e.source == r.source.value
    ensures !Truthy(r.source) ==> e.source == "python"
  {
    Entry(
      r.id.value,
      if Truthy(r.title) then r.title.value else "API Entry",
      if Truthy(r.content) then r.content else r.reflection,
      r.date,
      if Truthy(r.time) then r.time.value else "",
      if Truthy(r.source) then r.source.value else "python")
  }

  predicate IdsPresent(rs: seq<Record>) {
    forall r :: r in rs ==> r.id.Some?
  }

  /** `jsonEntries.map(...)`: one entry per record, in the same order. */
  function NormalizeAll(rs: seq<Record>): (es: seq<Entry>)
    requires IdsPresent(rs)
    ensures |es| == |rs|
    ensures forall i :: 0 <= i < |rs| ==> es[i] == Normalize(rs[i])
  {
    if rs == [] then [] else [Normalize(rs[0])] + NormalizeAll(rs[1..])
  }

  /** Every record of a successful, parsed body carries an id. A record without one
      would give the NaN id of `parseInt(undefined)`, which the model leaves out. */
  predicate ListReplyIdsParse(reply: ListReply) {
    reply.ListResolved? && reply.ok && reply.body.Some? ==> IdsPresent(reply.body.value)
  }

  /** `loadJSONEntries`: the API's records, normalised; any failure degrades to []. */
  function LoadJsonEntries(reply: ListReply): (es: seq<Entry>)
    requires ListReplyIdsParse(reply)
    ensures reply.ListRejected? ==> es == []
    ensures reply.ListResolved? && (!reply.ok || reply.body.None?) ==> es == []
    ensures reply.ListResolved? && reply.ok && reply.body.Some? ==>
      |es| == |reply.body.value| &&
      forall i :: 0 <= i < |es| ==> es[i] == Normalize(reply.body.value[i])
  {
    match reply
    case ListRejected => []
    case ListResolved(ok, body) =>
      if !ok then []
      else if body.None? then []
      else NormalizeAll(body.value)
  }

  // ---------------------------------------------------------------------------
  // removeDuplicates: first occurrence of each id wins

  function Ids(s: seq<Entry>): set<int> {
    set e | e in s :: e.id
  }

  predicate UniqueIds(s: seq<Entry>) {
    forall i, j :: 0 <= i < j < |s| ==> s[i].id != s[j].id
  }

  /** The first entry of `s` carrying id `k`. */
  function FirstWith(s: seq<Entry>, k: int): (e: Entry)
    requires k in Ids(s)
    ensures e in s && e.id == k
  {
    if s[0].id == k then s[0]
    else
      assert forall x :: x in s && x != s[0] ==> x in s[1..];
      FirstWith(s[1..], k)
  }

  /** The filter of `removeDuplicates`, started with the ids in `seen` already seen. */
  function DedupFrom(s: seq<Entry>, seen: set<int>): (r: seq<Entry>)
    ensures forall e :: e in r ==> e in s && e.id !in seen
  {
    if s == [] then []
    else if s[0].id in seen then DedupFrom(s[1..], seen)
    else [s[0]] + DedupFrom(s[1..], seen + {s[0].id})
  }

  function Dedup(s: seq<Entry>): seq<Entry> {
    DedupFrom(s, {})
  }

  lemma {:induction false} DedupFromUnique(s: seq<Entry>, seen: set<int>)
    ensures UniqueIds(DedupFrom(s, seen))
  {
    if s != [] {
      if s[0].id in seen {
        DedupFromUnique(s[1..], seen);
      } else {
        var rest := DedupFrom(s[1..], seen + {s[0].id});
        DedupFromUnique(s[1..], seen + {s[0].id});
        var r := [s[0]] + rest;
        forall i, j | 0 <= i < j < |r| ensures r[i].id != r[j].id {
          if i == 0 {
            assert r[j] == rest[j - 1] && rest[j - 1] in rest;
          } else {
            assert r[i] == rest[i - 1] && r[j] == rest[j - 1];
          }
        }
      }
    }
  }

  lemma IdsCons(x: Entry, s: seq<Entry>)
    ensures Ids([x] + s) == {x.id} + Ids(s)
  {
    assert forall y :: y in [x] + s <==> y == x || y in s;
  }

  lemma {:induction false} DedupFromIds(s: seq<Entry>, seen: set<int>)
    ensures Ids(DedupFrom(s, seen)) == Ids(s) - seen
  {
    if s != [] {
      var seen' := if s[0].id in seen then seen else seen + {s[0].id};
      DedupFromIds(s[1..], seen');
      assert s == [s[0]] + s[1..];
      IdsCons(s[0], s[1..]);
      if s[0].id !in seen {
        IdsCons(s[0], DedupFrom(s[1..], seen'));
      }
    }
  }

  lemma {:induction false} DedupFromSubsequence(s: seq<Entry>, seen: set<int>)
    ensures Subsequence(DedupFrom(s, seen), s)
  {
    if s != [] {
      var r := DedupFrom(s, seen);
      if s[0].id in seen {
        DedupFromSubsequence(s[1..], seen);
      } else {
        DedupFromSubsequence(s[1..], seen + {s[0].id});
        assert r[0] == s[0] && r[1..] == DedupFrom(s[1..], seen + {s[0].id});
      }
    }
  }

  /** Every kept entry is the first entry of the input with its id. */
  lemma {:induction false} DedupFromFirstWins(s: seq<Entry>, seen: set<int>)
    ensures forall e :: e in DedupFrom(s, seen) ==> e.id in Ids(s) && e == FirstWith(s, e.id)
  {
    if s != [] {
      var seen' := if s[0].id in seen then seen else seen + {s[0].id};
      DedupFromFirstWins(s[1..], seen');
      forall e | e in DedupFrom(s, seen) ensures e.id in Ids(s) && e == FirstWith(s, e.id) {
        assert e in s;
        if e != s[0] || s[0].id in seen {
          assert e in DedupFrom(s[1..], seen');
          assert e.id != s[0].id;
        }
      }
    }
  }

  /** The position of the first entry of `s` carrying id `k`. */
  function FirstIndex(s: seq<Entry>, k: int): (i: nat)
    requires k in Ids(s)
    ensures i < |s| && s[i].id == k
    ensures forall j :: 0 <= j < i ==> s[j].id != k
  {
    if s[0].id == k then 0
    else
      assert forall x :: x in s && x != s[0] ==> x in s[1..];
      FirstIndex(s[1..], k) + 1
  }

  /** The ids of `r` appear in the order of their first occurrences in `s`. */
  predicate InFirstOccurrenceOrder(r: seq<Entry>, s: seq<Entry>) {
    forall i, j :: 0 <= i < j < |r| && r[i].id in Ids(s) && r[j].id in Ids(s) ==>
      FirstIndex(s, r[i].id) < FirstIndex(s, r[j].id)
  }

  /** Past a first entry with another id, the first index is one more than in the tail. */
  lemma FirstIndexTail(s: seq<Entry>, k: int)
    requires s != [] && s[0].id != k && k in Ids(s[1..])
    ensures k in Ids(s) && FirstIndex(s, k) == FirstIndex(s[1..], k) + 1
  {
    assert [s[0]] + s[1..] == s;
    IdsCons(s[0], s[1..]);
  }

  /** The filter emits ids in the order in which they first occur. */
  lemma {:induction false} DedupFromOrder(s: seq<Entry>, seen: set<int>)
    ensures InFirstOccurrenceOrder(DedupFrom(s, seen), s)
  {
    if s != [] {
      var seen' := if s[0].id in seen then seen else seen + {s[0].id};
      var rest := DedupFrom(s[1..], seen');
      DedupFromOrder(s[1..], seen');
      forall e | e in rest ensures e.id in Ids(s[1..]) && e.id != s[0].id {
        assert e in s[1..] && e.id !in seen';
      }
      ShiftedOrder(s, rest);
      if s[0].id !in seen {
        ConsOrder(s, rest);
      }
    }
  }

  /** An order on ids that avoid `s[0].id` carries over from `s[1..]` to `s`. */
  lemma ShiftedOrder(s: seq<Entry>, rest: seq<Entry>)
    requires s != []
    requires forall e :: e in rest ==> e.id in Ids(s[1..]) && e.id != s[0].id
    requires InFirstOccurrenceOrder(rest, s[1..])
    ensures InFirstOccurrenceOrder(rest, s)
  {
    forall e | e in rest ensures e.id in Ids(s) && FirstIndex(s, e.id) == FirstIndex(s[1..], e.id) + 1 {
      FirstIndexTail(s, e.id);
    }
    forall i, j | 0 <= i < j < |rest| && rest[i].id in Ids(s) && rest[j].id in Ids(s)
      ensures FirstIndex(s, rest[i].id) < FirstIndex(s, rest[j].id)
    {
      assert rest[i] in rest && rest[j] in rest;
    }
  }

  /** `s[0]` goes first: its id has first index 0. */
  lemma ConsOrder(s: seq<Entry>, rest: seq<Entry>)
    requires s != []
    requires InFirstOccurrenceOrder(rest, s)
    requires forall e :: e in rest ==> e.id != s[0].id
    ensures InFirstOccurrenceOrder([s[0]] + rest, s)
  {
    var r := [s[0]] + rest;
    forall i, j | 0 <= i < j < |r| && r[i].id in Ids(s) && r[j].id in Ids(s)
      ensures FirstIndex(s, r[i].id) < FirstIndex(s, r[j].id)
    {
      if i == 0 {
        assert r[j] in rest;
        HeadFirst(s, r[j].id);
      } else {
        assert r[i] == rest[i - 1] && r[j] == rest[j - 1];
      }
    }
  }

  lemma HeadFirst(s: seq<Entry>, k: int)
    requires s != [] && k in Ids(s) && k != s[0].id
    ensures s[0].id in Ids(s) && FirstIndex(s, s[0].id) < FirstIndex(s, k)
  {
    assert s[0] in s;
  }

  /** What `removeDuplicates` promises: each id once, every id kept, the first
      occurrence of an id is the one kept, and the kept entries come in the order of
      those first occurrences. */
  lemma DedupSpec(s: seq<Entry>)
    ensures UniqueIds(Dedup(s))
    ensures Ids(Dedup(s)) == Ids(s)
    ensures Subsequence(Dedup(s), s)
    ensures forall e :: e in Dedup(s) ==> e == FirstWith(s, e.id)
    ensures InFirstOccurrenceOrder(Dedup(s), s)
  {
    DedupFromOrder(s, {});
    DedupFromUnique(s, {});
    DedupFromIds(s, {});
    DedupFromSubsequence(s, {});
    DedupFromFirstWins(s, {});
  }

  // ---------------------------------------------------------------------------
  // getAllEntries: sort by id, newest first

  predicate Descending(s: seq<Entry>) {
    forall i, j :: 0 <= i < j < |s| ==> s[i].id >= s[j].id
  }

  predicate StrictlyDescending(s: seq<Entry>) {
    forall i, j :: 0 <= i < j < |s| ==> s[i].id > s[j].id
  }

  /** One insertion step of a stable sort by `b.id - a.id`. */
  function InsertDesc(e: Entry, s: seq<Entry>): (r: seq<Entry>)
    ensures multiset(r) == multiset(s) + multiset{e}
    ensures forall x :: x in r <==> x == e || x in s
  {
    if s == [] || e.id >= s[0].id then [e] + s
    else
      assert s == [s[0]] + s[1..];
      [s[0]] + InsertDesc(e, s[1..])
  }

  lemma {:induction false} InsertDescSorted(e: Entry, s: seq<Entry>)
    requires Descending(s)
    ensures Descending(InsertDesc(e, s))
  {
    var r := InsertDesc(e, s);
    if s == [] || e.id >= s[0].id {
      forall i, j | 0 <= i < j < |r| ensures r[i].id >= r[j].id {
        assert r[j] == s[j - 1];
        if i > 0 {
          assert r[i] == s[i - 1];
        }
      }
    } else {
      var rest := InsertDesc(e, s[1..]);
      InsertDescSorted(e, s[1..]);
      forall i, j | 0 <= i < j < |r| ensures r[i].id >= r[j].id {
        if i == 0 {
          assert r[j] == rest[j - 1] && rest[j - 1] in rest;
          if rest[j - 1] != e {
            var k :| 0 <= k < |s[1..]| && s[1..][k] == rest[j - 1];
            assert s[k + 1] == rest[j - 1];
          }
        } else {
          assert r[i] == rest[i - 1] && r[j] == rest[j - 1];
        }
      }
    }
  }

  lemma UniqueCons(x: Entry, t: seq<Entry>)
    ensures UniqueIds([x] + t) <==> UniqueIds(t) && x.id !in Ids(t)
  {
    var r := [x] + t;
    if UniqueIds(r) {
      forall i, j | 0 <= i < j < |t| ensures t[i].id != t[j].id {
        assert t[i] == r[i + 1] && t[j] == r[j + 1];
      }
      forall y | y in t ensures y.id != x.id {
        var k :| 0 <= k < |t| && t[k] == y;
        assert r[0] == x && r[k + 1] == y;
      }
    }
    if UniqueIds(t) && x.id !in Ids(t) {
      forall i, j | 0 <= i < j < |r| ensures r[i].id != r[j].id {
        assert r[j] == t[j - 1] && t[j - 1] in t;
        if i > 0 {
          assert r[i] == t[i - 1];
        }
      }
    }
  }

  lemma IdsInsertDesc(e: Entry, s: seq<Entry>)
    ensures Ids(InsertDesc(e, s)) == {e.id} + Ids(s)
  {
  }

  lemma {:induction false} InsertDescUnique(e: Entry, s: seq<Entry>)
    requires UniqueIds(s) && e.id !in Ids(s)
    ensures UniqueIds(InsertDesc(e, s))
  {
    if s == [] || e.id >= s[0].id {
      UniqueCons(e, s);
    } else {
      assert s == [s[0]] + s[1..];
      UniqueCons(s[0], s[1..]);
      IdsCons(s[0], s[1..]);
      InsertDescUnique(e, s[1..]);
      IdsInsertDesc(e, s[1..]);
      UniqueCons(s[0], InsertDesc(e, s[1..]));
    }
  }

  /** `array.sort((a, b) => b.id - a.id)`: a permutation of its input, ids descending. */
  function SortByIdDesc(s: seq<Entry>): (r: seq<Entry>)
    ensures multiset(r) == multiset(s)
    ensures forall x :: x in r <==> x in s
    ensures Descending(r)
  {
    if s == [] then []
    else
      assert s == [s[0]] + s[1..];
      var sortedRest := SortByIdDesc(s[1..]);
      InsertDescSorted(s[0], sortedRest);
      InsertDesc(s[0], sortedRest)
  }

  lemma {:induction false} SortByIdDescUnique(s: seq<Entry>)
    requires UniqueIds(s)
    ensures UniqueIds(SortByIdDesc(s))
  {
    if s != [] {
      var t := SortByIdDesc(s[1..]);
      assert s == [s[0]] + s[1..];
      UniqueCons(s[0], s[1..]);
      SortByIdDescUnique(s[1..]);
      assert Ids(t) == Ids(s[1..]);
      InsertDescUnique(s[0], t);
    }
  }

  /** The list `getAllEntries` returns: local entries before API entries, duplicates
      removed, newest id first. */
  function MergedView(local: seq<Entry>, api: seq<Entry>): seq<Entry> {
    SortByIdDesc(Dedup(local + api))
  }

  lemma {:induction false} IdsAppend(a: seq<Entry>, b: seq<Entry>)
    ensures Ids(a + b) == Ids(a) + Ids(b)
  {
    assert forall x :: x in a + b <==> x in a || x in b;
  }

  lemma {:induction false} FirstWithAppend(a: seq<Entry>, b: seq<Entry>, k: int)
    requires k in Ids(a) + Ids(b)
    ensures k in Ids(a + b)
    ensures FirstWith(a + b, k) == if k in Ids(a) then FirstWith(a, k) else FirstWith(b, k)
  {
    IdsAppend(a, b);
    if a == [] {
      assert a + b == b;
    } else {
      assert (a + b)[0] == a[0] && (a + b)[1..] == a[1..] + b;
      if a[0].id != k {
        assert forall x :: x in a <==> x == a[0] || x in a[1..];
        FirstWithAppend(a[1..], b, k);
      }
    }
  }

  /** The properties `getAllEntries` promises of its result. */
  lemma MergedViewSpec(local: seq<Entry>, api: seq<Entry>)
    ensures StrictlyDescending(MergedView(local, api))
    ensures Ids(MergedView(local, api)) == Ids(local) + Ids(api)
    ensures multiset(MergedView(local, api)) == multiset(Dedup(local + api))
    ensures forall e :: e in MergedView(local, api) ==>
      (e.id in Ids(local) ==> e == FirstWith(local, e.id)) &&
      (e.id !in Ids(local) ==> e.id in Ids(api) && e == FirstWith(api, e.id))
  {
    var d := Dedup(local + api);
    var r := MergedView(local, api);
    DedupSpec(local + api);
    IdsAppend(local, api);
    SortByIdDescUnique(d);
    assert forall x :: x in r <==> x in d;
    assert Ids(r) == Ids(d);
    forall e | e in r
      ensures (e.id in Ids(local) ==> e == FirstWith(local, e.id))
      ensures (e.id !in Ids(local) ==> e.id in Ids(api) && e == FirstWith(api, e.id))
    {
      assert e in d;
      assert e.id in Ids(local + api);
      FirstWithAppend(local, api, e.id);
    }
  }

  /** The example merge: a local entry 5 shadows the API's entry 5, and the API's
      entry 3 follows it. */
  lemma MergeExample(mine: Entry, theirs5: Entry, theirs3: Entry)
    requires mine.id == 5 && mine.source == "browser"
    requires theirs5.id == 5 && theirs3.id == 3
    ensures MergedView([mine], [theirs5, theirs3]) == [mine, theirs3]
  {
    var all := [mine, theirs5, theirs3];
    assert [mine] + [theirs5, theirs3] == all;
    assert all[1..] == [theirs5, theirs3] && all[1..][1..] == [theirs3];
    assert DedupFrom([theirs3], {5}) == [theirs3] + DedupFrom([], {5, 3});
    assert DedupFrom(all[1..], {5}) == [theirs3];
    var none: set<int> := {};
    assert all[0] == mine && mine.id !in none && none + {mine.id} == {5};
    assert DedupFrom(all, {}) == [mine] + DedupFrom(all[1..], {5});
    assert Dedup(all) == [mine, theirs3];
    assert SortByIdDesc([theirs3]) == [theirs3];
    assert [mine, theirs3][1..] == [theirs3];
  }

  // ---------------------------------------------------------------------------
  // The entry counter shown above the list

  /** `entries.filter(e => e.source === tag).length` */
  function CountSource(es: seq<Entry>, tag: string): (n: nat)
    ensures n <= |es|
  {
    if es == [] then 0
    else (if es[0].source == tag then 1 else 0) + CountSource(es[1..], tag)
  }

  /** The 'Browser' and 'Python/API' counts never add up to more than the total. */
  lemma {:induction false} SourceCountsBounded(es: seq<Entry>)
    ensures CountSource(es, "browser") + CountSource(es, "python") <= |es|
  {
    if es != [] {
      SourceCountsBounded(es[1..]);
    }
  }

  // ---------------------------------------------------------------------------
  // The manager and its localStorage slot

  /** The entry `saveToLocal` creates; `now` is Date.now() and `date`, `time` the
      locale-formatted clock, all passed in. */
  function NewLocalEntry(title: string, content: string, now: int, date: string, time: string): Entry {
    Entry(now, title, Some(content), Some(date), time, "browser")
  }

  /** JournalStorageManager. Its only state is the localStorage value under
      'learningJournalEntries', None while the key is unset. */
  class JournalStorageManager {
    var slot: Option<seq<Entry>>
    ghost var localWrites: nat  // number of localStorage.setItem calls so far

    constructor (stored: Option<seq<Entry>>)
      ensures slot == stored && localWrites == 0
    {
      slot := stored;
      localWrites := 0;
    }

    /** `getLocalEntries`: an unset key reads as the empty list. */
    function GetLocalEntries(): (es: seq<Entry>)
      reads this
      ensures slot.None? ==> es == []
      ensures slot.Some? ==> es == slot.value
    {
      slot.GetOr([])
    }

    /** `deleteEntry(id, source)`, routed by the caller's tag. */
    method DeleteEntry(id: int, source: string) returns (call: Option<ApiCall>)
      modifies this
      ensures source == "browser" ==>
        && slot == Some(RemoveKey(old(GetLocalEntries()), EntryId, id))
        && localWrites == old(localWrites) + 1
        && call == None
      ensures source == "python" ==>
        slot == old(slot) && localWrites == old(localWrites) && call == Some(DeleteReflection(id))
      ensures source != "browser" && source != "python" ==>
        slot == old(slot) && localWrites == old(localWrites) && call == None
    {
      if source == "browser" {
        var existingEntries := GetLocalEntries();
        var updatedEntries := RemoveKey(existingEntries, EntryId, id);
        slot := Some(updatedEntries);
        localWrites := localWrites + 1;
        call := None;
      } else if source == "python" {
        // The reply only decides between a refresh and an alert.
        call := Some(DeleteReflection(id));
      } else {
        call := None;
      }
    }

    /** `saveToLocal`: one new 'browser' entry in front of the stored ones. */
    method SaveToLocal(title: string, content: string, now: int, date: string, time: string)
      modifies this
      ensures slot == Some([NewLocalEntry(title, content, now, date, time)] + old(GetLocalEntries()))
      ensures localWrites == old(localWrites) + 1
    {
      var existingEntries := GetLocalEntries();
      existingEntries := [NewLocalEntry(title, content, now, date, time)] + existingEntries;
      slot := Some(existingEntries);
      localWrites := localWrites + 1;
    }

    /** `saveEntry`: always POSTs; only a reply that resolved with `ok` skips the local
        fallback, and anything else leads to exactly one `saveToLocal`. */
    method SaveEntry(title: string, content: string, reply: Reply, now: int, date: string, time: string)
      returns (call: ApiCall)
      modifies this
      ensures call == PostReflection(title, content)
      ensures reply == Resolved(true) ==> slot == old(slot) && localWrites == old(localWrites)
      ensures reply != Resolved(true) ==>
        && slot == Some([NewLocalEntry(title, content, now, date, time)] + old(GetLocalEntries()))
        && localWrites == old(localWrites) + 1
    {
      call := PostReflection(title, content);
      match reply
      case Resolved(ok) =>
        if !ok {
          SaveToLocal(title, content, now, date, time);
        }
      case Rejected =>
        SaveToLocal(title, content, now, date, time);
    }

    /** `removeDuplicates`: a filter that remembers the ids it has passed. */
    method RemoveDuplicates(entries: seq<Entry>) returns (unique: seq<Entry>)
      ensures unique == Dedup(entries)
    {
      var seen: set<int> := {};
      unique := [];
      var i := 0;
      while i < |entries|
        invariant 0 <= i <= |entries|
        invariant unique + DedupFrom(entries[i..], seen) == Dedup(entries)
      {
        var entry := entries[i];
        assert entries[i..] == [entry] + entries[i + 1..];
        if entry.id !in seen {
          unique := unique + [entry];
          seen := seen + {entry.id};
        }
        i := i + 1;
      }
    }

    /** `getAllEntries`: always sends the GET; `reply` is how it ended. */
    method GetAllEntries(reply: ListReply) returns (entries: seq<Entry>, call: ApiCall)
      requires ListReplyIdsParse(reply)
      ensures call == GetReflections
      ensures entries == MergedView(GetLocalEntries(), LoadJsonEntries(reply))
      ensures StrictlyDescending(entries)
      ensures Ids(entries) == Ids(GetLocalEntries()) + Ids(LoadJsonEntries(reply))
    {
      var localEntries := GetLocalEntries();
      var jsonEntries := LoadJsonEntries(reply);
      var allEntries := localEntries + jsonEntries;
      var uniqueEntries := RemoveDuplicates(allEntries);
      entries := SortByIdDesc(uniqueEntries);
      call := GetReflections;
      MergedViewSpec(localEntries, jsonEntries);
    }
  }

  /** A reflection the Flask app created reaches the page tagged 'python', with the
      id the server gave it. */
  lemma ServerEntryShowsAsPython(data: ReflectionsApi.PostBody, now: int, date: string, time: string)
    requires data.content.Some?
    ensures Normalize(ReflectionsApi.NewReflection(data, now, date, time)).source == "python"
    ensures Normalize(ReflectionsApi.NewReflection(data, now, date, time)).id == now
    ensures data.title.None? ==>
      Normalize(ReflectionsApi.NewReflection(data, now, date, time)).title == "New API Entry"
  {
  }
}
