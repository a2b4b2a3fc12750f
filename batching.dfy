/**
  What `ElasticObj.bulk_index_data` and `ElasticObj.__bulk` do, stated on
  values: which records are accepted by the index's field list, how the
  accepted ones are cut into bulk requests, how many attempts a request gets,
  and what a successful request does to the index.
 */
module Batching {
  import opened Options
  import opened Cells

  /** Largest number of actions sent in one bulk request. */
  const BatchSize: nat := 1000

  /** Number of times one bulk request is tried. */
  const MaxAttempts: nat := 3

  /** Document ids; the engine assigns a fresh one to each indexed document. */
  type DocId = nat

  /** One bulk action: target index, document type and the document itself. */
  datatype Action = Action(index: string, docType: string, source: Record)

  /** The outcome of one call of the bulk helper: it returns, or it raises. */
  datatype BulkReply = Done | Raised

  /** A record may be indexed when every one of its fields is a property of
      the index mapping. */
  predicate Known(props: seq<Key>, body: Record) {
    forall k :: k in body ==> k in props
  }

  /** The records that pass the field check, in input order. */
  function Accepted(props: seq<Key>, items: seq<Record>): (acc: seq<Record>)
    ensures |acc| <= |items|
  {
    if items == [] then []
    else
      var last := items[|items| - 1];
      Accepted(props, items[..|items| - 1]) + (if Known(props, last) then [last] else [])
  }

  /** A record is submitted exactly when all its fields are known. */
  lemma {:induction false} AcceptedMembers(props: seq<Key>, items: seq<Record>)
    ensures forall r :: r in Accepted(props, items) <==> r in items && Known(props, r)
  {
    if items != [] {
      var init := items[..|items| - 1];
      AcceptedMembers(props, init);
      assert items == init + [items[|items| - 1]];
    }
  }

  /** Filtering commutes with concatenation: a rejected record neither stops
      nor reorders the records after it. */
  lemma {:induction false} AcceptedAppend(props: seq<Key>, a: seq<Record>, b: seq<Record>)
    ensures Accepted(props, a + b) == Accepted(props, a) + Accepted(props, b)
  {
    if b == [] {
      assert a + b == a;
    } else {
      var b' := b[..|b| - 1];
      assert (a + b)[..|a + b| - 1] == a + b';
      AcceptedAppend(props, a, b');
    }
  }

  /** A record with an unknown field is dropped alone: the records before and
      after it are submitted as if it were not there. */
  lemma RejectedRecordDroppedAlone(props: seq<Key>, a: seq<Record>, bad: Record, b: seq<Record>)
    requires !Known(props, bad)
    ensures Accepted(props, a + [bad] + b) == Accepted(props, a) + Accepted(props, b)
  {
    assert Accepted(props, [bad]) == [] by {
      assert [bad][..0] == [];
    }
    AcceptedAppend(props, a, [bad]);
    AcceptedAppend(props, a + [bad], b);
  }

  function ToActions(index: string, docType: string, bodies: seq<Record>): (acts: seq<Action>)
    ensures |acts| == |bodies|
  {
    if bodies == [] then []
    else ToActions(index, docType, bodies[..|bodies| - 1]) + [Action(index, docType, bodies[|bodies| - 1])]
  }

  lemma {:induction false} ToActionsSpec(index: string, docType: string, bodies: seq<Record>)
    ensures forall i :: 0 <= i < |bodies| ==> ToActions(index, docType, bodies)[i] == Action(index, docType, bodies[i])
  {
    if bodies != [] {
      ToActionsSpec(index, docType, bodies[..|bodies| - 1]);
    }
  }

  function Sources(acts: seq<Action>): (bodies: seq<Record>)
    ensures |bodies| == |acts|
    ensures forall i :: 0 <= i < |acts| ==> bodies[i] == acts[i].source
  {
    if acts == [] then [] else [acts[0].source] + Sources(acts[1..])
  }

  function Concat<T>(parts: seq<seq<T>>): seq<T> {
    if parts == [] then [] else parts[0] + Concat(parts[1..])
  }

  lemma {:induction false} ConcatAppend<T>(a: seq<seq<T>>, b: seq<seq<T>>)
    ensures Concat(a + b) == Concat(a) + Concat(b)
  {
    if a == [] {
      assert a + b == b;
    } else {
      assert (a + b)[1..] == a[1..] + b;
      ConcatAppend(a[1..], b);
    }
  }

  /** Consecutive pieces of `BatchSize` actions, the last one possibly shorter. */
  function Chunks<T>(s: seq<T>): (parts: seq<seq<T>>)
    ensures forall p :: p in parts ==> 1 <= |p| <= BatchSize
    decreases |s|
  {
    if s == [] then []
    else if |s| <= BatchSize then [s]
    else [s[..BatchSize]] + Chunks(s[BatchSize..])
  }

  /** The pieces laid end to end give back the whole. */
  lemma {:induction false} ChunksConcat<T>(s: seq<T>)
    ensures Concat(Chunks(s)) == s
    decreases |s|
  {
    if |s| > BatchSize {
      ChunksConcat(s[BatchSize..]);
      assert Chunks(s)[1..] == Chunks(s[BatchSize..]);
      assert s[..BatchSize] + s[BatchSize..] == s;
    } else if s != [] {
      assert Chunks(s)[1..] == [];
    }
  }

  /** `bulk_index_data` sends one request per started thousand of accepted
      records. */
  lemma {:induction false} ChunksCount<T>(s: seq<T>)
    ensures |Chunks(s)| == (|s| + BatchSize - 1) / BatchSize
    decreases |s|
  {
    if |s| > BatchSize {
      ChunksCount(s[BatchSize..]);
    }
  }

  /** Full batches followed by a shorter tail are what `Chunks` cuts from
      their concatenation: the flush-at-1000 loop produces `Chunks`. */
  lemma {:induction false} ChunksOfFull<T>(full: seq<seq<T>>, tail: seq<T>)
    requires forall p :: p in full ==> |p| == BatchSize
    requires |tail| < BatchSize
    ensures Chunks(Concat(full) + tail) == full + (if tail == [] then [] else [tail])
    decreases |full|
  {
    var t := if tail == [] then [] else [tail];
    if full == [] {
      assert Concat(full) + tail == tail;
    } else {
      var rest, more := full[1..], Concat(full[1..]) + tail;
      assert Concat(full) + tail == full[0] + more;
      assert |full[0]| == BatchSize by {
        assert full[0] in full;
      }
      ChunksOfFull(rest, tail);
      ChunksCons(full[0], more);
      assert Chunks(Concat(full) + tail) == [full[0]] + (rest + t);
      assert [full[0]] + (rest + t) == full + t;
    }
  }

  lemma ChunksCons<T>(first: seq<T>, more: seq<T>)
    requires |first| == BatchSize
    ensures Chunks(first + more) == [first] + Chunks(more)
  {
    var s := first + more;
    if more == [] {
      assert s == first;
    } else {
      assert s[..BatchSize] == first;
      assert s[BatchSize..] == more;
    }
  }

  /** The index of the first attempt, among `tries` attempts starting at the
      `start`-th call of the bulk helper, that returns. */
  function FirstSuccess(server: nat -> BulkReply, start: nat, tries: nat): Option<nat>
    decreases tries
  {
    if tries == 0 then None
    else if server(start) == Done then Some(0)
    else
      var rest := FirstSuccess(server, start + 1, tries - 1);
      if rest.None? then None else Some(rest.value + 1)
  }

  /** The first success is an attempt that returned, every earlier attempt
      raised, and when there is none every attempt raised. */
  lemma {:induction false} FirstSuccessSpec(server: nat -> BulkReply, start: nat, tries: nat)
    ensures var r := FirstSuccess(server, start, tries);
      && (r.Some? ==> r.value < tries && server(start + r.value) == Done)
      && (r.Some? ==> forall a :: start <= a < start + r.value ==> server(a) == Raised)
      && (r.None? ==> forall a :: start <= a < start + tries ==> server(a) == Raised)
    decreases tries
  {
    if tries > 0 && server(start) != Done {
      FirstSuccessSpec(server, start + 1, tries - 1);
    }
  }

  /** What the index looks like from outside: its documents, the next id the
      engine will hand out, and how many bulk calls have been made so far. */
  datatype IndexState = IndexState(docs: map<DocId, Record>, nextId: DocId, attempts: nat)

  ghost predicate Fresh(st: IndexState) {
    forall id :: id in st.docs ==> id < st.nextId
  }

  /** The documents after `bodies` are indexed under the ids `next`,
      `next + 1`, ... in order. */
  function Inserted(docs: map<DocId, Record>, next: DocId, bodies: seq<Record>): map<DocId, Record> {
    if bodies == [] then docs
    else Inserted(docs, next, bodies[..|bodies| - 1])[next + |bodies| - 1 := bodies[|bodies| - 1]]
  }

  /** With fresh ids, indexing adds exactly the ids `next` to
      `next + |bodies| - 1`, each holding its document, and leaves the
      documents already there untouched. */
  lemma {:induction false} InsertedSpec(docs: map<DocId, Record>, next: DocId, bodies: seq<Record>)
    requires forall id :: id in docs ==> id < next
    ensures forall id :: id in Inserted(docs, next, bodies) <==> id in docs || next <= id < next + |bodies|
    ensures forall id :: id in docs ==> Inserted(docs, next, bodies)[id] == docs[id]
    ensures forall id :: next <= id < next + |bodies| ==> Inserted(docs, next, bodies)[id] == bodies[id - next]
  {
    if bodies != [] {
      InsertedSpec(docs, next, bodies[..|bodies| - 1]);
    }
  }

  /** One `__bulk` call: up to `MaxAttempts` attempts, stopping at the first
      one that returns; the result is the success count, or `None`. */
  function BulkStep(st: IndexState, server: nat -> BulkReply, batch: seq<Action>): (r: (IndexState, Option<nat>))
    requires Fresh(st)
    ensures st.attempts < r.0.attempts <= st.attempts + MaxAttempts
    ensures r.1.Some? ==> r.1.value == |batch| && r.0.nextId == st.nextId + |batch|
    ensures r.1.None? ==> r.0.docs == st.docs && r.0.nextId == st.nextId && r.0.attempts == st.attempts + MaxAttempts
  {
    FirstSuccessSpec(server, st.attempts, MaxAttempts);
    match FirstSuccess(server, st.attempts, MaxAttempts)
    case Some(j) =>
      (IndexState(Inserted(st.docs, st.nextId, Sources(batch)), st.nextId + |batch|, st.attempts + j + 1),
       Some(|batch|))
    case None => (st.(attempts := st.attempts + MaxAttempts), None)
  }

  /** `__bulk` makes between one and `MaxAttempts` attempts and stops at the
      first success; it reports the batch size when one attempt succeeded,
      in which case every action of the batch is indexed under a fresh id,
      and `None` only once all `MaxAttempts` attempts raised, in which case
      the documents are unchanged. */
  lemma BulkStepSpec(st: IndexState, server: nat -> BulkReply, batch: seq<Action>)
    requires Fresh(st)
    ensures var (st', success) := BulkStep(st, server, batch);
      && Fresh(st')
      && st.attempts < st'.attempts <= st.attempts + MaxAttempts
      && (forall a :: st.attempts <= a < st'.attempts - 1 ==> server(a) == Raised)
      && (success.Some? <==> server(st'.attempts - 1) == Done)
      && (success.Some? ==> success.value == |batch|)
      && (success.None? ==> st'.docs == st.docs && st'.nextId == st.nextId && st'.attempts == st.attempts + MaxAttempts)
      && (forall id :: id in st.docs ==> id in st'.docs && st'.docs[id] == st.docs[id])
      && (success.Some? ==> forall i :: 0 <= i < |batch| ==>
            st.nextId + i in st'.docs && st'.docs[st.nextId + i] == batch[i].source)
  {
    FirstSuccessSpec(server, st.attempts, MaxAttempts);
    InsertedSpec(st.docs, st.nextId, Sources(batch));
    var r := FirstSuccess(server, st.attempts, MaxAttempts);
    if r.Some? {
      var d := Inserted(st.docs, st.nextId, Sources(batch));
      assert BulkStep(st, server, batch) == (IndexState(d, st.nextId + |batch|, st.attempts + r.value + 1), Some(|batch|));
    } else {
      assert BulkStep(st, server, batch) == (st.(attempts := st.attempts + MaxAttempts), None);
    }
  }

  /** The state after the given batches are submitted one after the other. */
  function ApplyBatches(st: IndexState, server: nat -> BulkReply, batches: seq<seq<Action>>): (st': IndexState)
    requires Fresh(st)
    ensures Fresh(st')
  {
    if batches == [] then st
    else
      var mid := ApplyBatches(st, server, batches[..|batches| - 1]);
      BulkStepSpec(mid, server, batches[|batches| - 1]);
      BulkStep(mid, server, batches[|batches| - 1]).0
  }

  /** Submitting batches never alters or removes a document already indexed,
      and never hands out an id twice. */
  lemma {:induction false} ApplyBatchesKeeps(st: IndexState, server: nat -> BulkReply, batches: seq<seq<Action>>)
    requires Fresh(st)
    ensures ApplyBatches(st, server, batches).nextId >= st.nextId
    ensures ApplyBatches(st, server, batches).attempts >= st.attempts + |batches|
    ensures forall id :: id in st.docs ==>
              id in ApplyBatches(st, server, batches).docs && ApplyBatches(st, server, batches).docs[id] == st.docs[id]
  {
    if batches != [] {
      var init := batches[..|batches| - 1];
      ApplyBatchesKeeps(st, server, init);
      BulkStepSpec(ApplyBatches(st, server, init), server, batches[|batches| - 1]);
    }
  }

  /** A batch whose first attempt returns is indexed whole, after the
      documents of the batches before it. */
  lemma ApplyBatchesDoneStep(st: IndexState, server: nat -> BulkReply, init: seq<seq<Action>>, last: seq<Action>)
    requires Fresh(st) && server(ApplyBatches(st, server, init).attempts) == Done
    ensures var mid := ApplyBatches(st, server, init);
      && ApplyBatches(st, server, init + [last]).docs == Inserted(mid.docs, mid.nextId, Sources(last))
      && ApplyBatches(st, server, init + [last]).nextId == mid.nextId + |last|
      && ApplyBatches(st, server, init + [last]).attempts == mid.attempts + 1
  {
    var mid := ApplyBatches(st, server, init);
    FirstSuccessAt(server, mid.attempts, MaxAttempts, 0);
    BulkStepDone(mid, server, last, 0);
    ApplyBatchesSnoc(st, server, init, last);
  }

  /** Indexing two lists one after the other is indexing their
      concatenation. */
  lemma {:induction false} InsertedAppend(docs: map<DocId, Record>, next: DocId, a: seq<Record>, b: seq<Record>)
    ensures Inserted(docs, next, a + b) == Inserted(Inserted(docs, next, a), next + |a|, b)
  {
    if b == [] {
      assert a + b == a;
    } else {
      var b' := b[..|b| - 1];
      assert (a + b)[..|a + b| - 1] == a + b';
      InsertedAppend(docs, next, a, b');
    }
  }

  lemma SourcesAppend(a: seq<Action>, b: seq<Action>)
    ensures Sources(a + b) == Sources(a) + Sources(b)
  {
  }

  lemma InsertedAfter(docs: map<DocId, Record>, next: DocId, mid: map<DocId, Record>, midNext: DocId,
                      head: seq<Record>, tail: seq<Record>)
    requires mid == Inserted(docs, next, head) && midNext == next + |head|
    ensures Inserted(mid, midNext, tail) == Inserted(docs, next, head + tail)
  {
    InsertedAppend(docs, next, head, tail);
  }

  /** When every call of the bulk helper returns, each batch takes one
      attempt, and the actions are indexed in order under consecutive fresh
      ids, next to the documents already there. */
  lemma {:induction false} ApplyBatchesAllDone(st: IndexState, server: nat -> BulkReply, batches: seq<seq<Action>>)
    requires Fresh(st) && forall a :: server(a) == Done
    ensures ApplyBatches(st, server, batches).attempts == st.attempts + |batches|
    ensures ApplyBatches(st, server, batches).nextId == st.nextId + |Concat(batches)|
    ensures ApplyBatches(st, server, batches).docs == Inserted(st.docs, st.nextId, Sources(Concat(batches)))
  {
    if batches != [] {
      var init, last := batches[..|batches| - 1], batches[|batches| - 1];
      ApplyBatchesAllDone(st, server, init);
      assert batches == init + [last];
      ApplyBatchesDoneStep(st, server, init, last);
      ConcatSnoc(init, last);
      var head, tail := Sources(Concat(init)), Sources(last);
      SourcesAppend(Concat(init), last);
      var mid := ApplyBatches(st, server, init);
      InsertedAfter(st.docs, st.nextId, mid.docs, mid.nextId, head, tail);
    }
  }

  /** The batches of one `bulk_index_data` call on `items`. */
  function BatchesOf(index: string, docType: string, props: seq<Key>, items: seq<Record>): (batches: seq<seq<Action>>)
    ensures forall b :: b in batches ==> 1 <= |b| <= BatchSize
    ensures |batches| == (|Accepted(props, items)| + BatchSize - 1) / BatchSize
  {
    ChunksCount(ToActions(index, docType, Accepted(props, items)));
    Chunks(ToActions(index, docType, Accepted(props, items)))
  }

  /** Every batch holds between 1 and `BatchSize` actions, and the batches
      laid end to end are exactly the accepted records, in input order. */
  lemma BatchesOfSpec(index: string, docType: string, props: seq<Key>, items: seq<Record>)
    ensures forall b :: b in BatchesOf(index, docType, props, items) ==> 1 <= |b| <= BatchSize
    ensures Sources(Concat(BatchesOf(index, docType, props, items))) == Accepted(props, items)
    ensures forall a :: a in Concat(BatchesOf(index, docType, props, items)) ==> a.index == index && a.docType == docType
  {
    var acc := Accepted(props, items);
    var acts := ToActions(index, docType, acc);
    ChunksConcat(acts);
    assert Concat(BatchesOf(index, docType, props, items)) == acts;
    ToActionsSpec(index, docType, acc);
    assert Sources(acts) == acc;
    forall a | a in acts
      ensures a.index == index && a.docType == docType
    {
      var i :| 0 <= i < |acts| && acts[i] == a;
    }
  }

  /** The batches sent by a sequence of `bulk_index_data` calls, one item
      list per call. */
  function AllBatches(index: string, docType: string, props: seq<Key>, calls: seq<seq<Record>>): seq<seq<Action>> {
    if calls == [] then []
    else AllBatches(index, docType, props, calls[..|calls| - 1]) + BatchesOf(index, docType, props, calls[|calls| - 1])
  }

  /** The index state after a sequence of `bulk_index_data` calls. */
  function ApplyCalls(st: IndexState, server: nat -> BulkReply, index: string, docType: string, props: seq<Key>,
                      calls: seq<seq<Record>>): (st': IndexState)
    requires Fresh(st)
    ensures Fresh(st')
  {
    if calls == [] then st
    else
      ApplyBatches(ApplyCalls(st, server, index, docType, props, calls[..|calls| - 1]), server,
                   BatchesOf(index, docType, props, calls[|calls| - 1]))
  }

  lemma AllBatchesSnoc(index: string, docType: string, props: seq<Key>, calls: seq<seq<Record>>, items: seq<Record>)
    ensures AllBatches(index, docType, props, calls + [items])
            == AllBatches(index, docType, props, calls) + BatchesOf(index, docType, props, items)
  {
    assert (calls + [items])[..|calls|] == calls;
  }

  lemma ApplyCallsSnoc(st: IndexState, server: nat -> BulkReply, index: string, docType: string, props: seq<Key>,
                       calls: seq<seq<Record>>, items: seq<Record>)
    requires Fresh(st)
    ensures ApplyCalls(st, server, index, docType, props, calls + [items])
            == ApplyBatches(ApplyCalls(st, server, index, docType, props, calls), server, BatchesOf(index, docType, props, items))
  {
    assert (calls + [items])[..|calls|] == calls;
  }

  /** However the bulk helper answers, a sequence of calls never alters or
      removes a document already indexed, and never hands out an id twice. */
  lemma {:induction false} ApplyCallsKeeps(st: IndexState, server: nat -> BulkReply, index: string, docType: string,
                                           props: seq<Key>, calls: seq<seq<Record>>)
    requires Fresh(st)
    ensures ApplyCalls(st, server, index, docType, props, calls).nextId >= st.nextId
    ensures ApplyCalls(st, server, index, docType, props, calls).attempts >= st.attempts
    ensures forall id :: id in st.docs ==>
              id in ApplyCalls(st, server, index, docType, props, calls).docs
              && ApplyCalls(st, server, index, docType, props, calls).docs[id] == st.docs[id]
  {
    if calls != [] {
      var init := calls[..|calls| - 1];
      ApplyCallsKeeps(st, server, index, docType, props, init);
      ApplyBatchesKeeps(ApplyCalls(st, server, index, docType, props, init), server,
                        BatchesOf(index, docType, props, calls[|calls| - 1]));
    }
  }

  /** The accepted records of a sequence of calls, call after call. */
  function AcceptedAll(props: seq<Key>, calls: seq<seq<Record>>): seq<Record> {
    if calls == [] then []
    else AcceptedAll(props, calls[..|calls| - 1]) + Accepted(props, calls[|calls| - 1])
  }

  /** When every call of the bulk helper returns, a sequence of
      `bulk_index_data` calls indexes exactly their accepted records, in
      order, under consecutive fresh ids next to the documents already
      there. */
  lemma {:induction false} ApplyCallsAllDone(st: IndexState, server: nat -> BulkReply, index: string, docType: string,
                                             props: seq<Key>, calls: seq<seq<Record>>)
    requires Fresh(st) && forall a :: server(a) == Done
    ensures ApplyCalls(st, server, index, docType, props, calls).nextId == st.nextId + |AcceptedAll(props, calls)|
    ensures ApplyCalls(st, server, index, docType, props, calls).docs == Inserted(st.docs, st.nextId, AcceptedAll(props, calls))
  {
    if calls != [] {
      var init, last := calls[..|calls| - 1], calls[|calls| - 1];
      ApplyCallsAllDone(st, server, index, docType, props, init);
      var mid := ApplyCalls(st, server, index, docType, props, init);
      var batches := BatchesOf(index, docType, props, last);
      ApplyBatchesAllDone(mid, server, batches);
      BatchesOfSpec(index, docType, props, last);
      assert |Concat(batches)| == |Accepted(props, last)| by {
        assert |Sources(Concat(batches))| == |Concat(batches)|;
      }
      InsertedAfter(st.docs, st.nextId, mid.docs, mid.nextId, AcceptedAll(props, init), Accepted(props, last));
    }
  }

  lemma AcceptedStep(props: seq<Key>, items: seq<Record>, i: nat)
    requires i < |items|
    ensures Accepted(props, items[..i + 1])
            == Accepted(props, items[..i]) + (if Known(props, items[i]) then [items[i]] else [])
  {
    assert items[..i + 1][..i] == items[..i];
  }

  lemma ToActionsSnoc(index: string, docType: string, bodies: seq<Record>, body: Record)
    ensures ToActions(index, docType, bodies + [body]) == ToActions(index, docType, bodies) + [Action(index, docType, body)]
  {
    assert (bodies + [body])[..|bodies|] == bodies;
  }

  lemma ConcatSnoc<T>(parts: seq<seq<T>>, part: seq<T>)
    ensures Concat(parts + [part]) == Concat(parts) + part
  {
    ConcatAppend(parts, [part]);
    assert [part][1..] == [];
  }

  lemma ApplyBatchesSnoc(st: IndexState, server: nat -> BulkReply, batches: seq<seq<Action>>, batch: seq<Action>)
    requires Fresh(st)
    ensures ApplyBatches(st, server, batches + [batch])
            == BulkStep(ApplyBatches(st, server, batches), server, batch).0
  {
    assert (batches + [batch])[..|batches|] == batches;
  }

  /** The first success is the first attempt that returns. */
  lemma {:induction false} FirstSuccessAt(server: nat -> BulkReply, start: nat, tries: nat, i: nat)
    requires i < tries && server(start + i) == Done
    requires forall a :: start <= a < start + i ==> server(a) == Raised
    ensures FirstSuccess(server, start, tries) == Some(i)
    decreases i
  {
    if i > 0 {
      assert server(start) == Raised;
      FirstSuccessAt(server, start + 1, tries - 1, i - 1);
    }
  }

  /** When every attempt raises there is no success. */
  lemma {:induction false} FirstSuccessNone(server: nat -> BulkReply, start: nat, tries: nat)
    requires forall a :: start <= a < start + tries ==> server(a) == Raised
    ensures FirstSuccess(server, start, tries) == None
    decreases tries
  {
    if tries > 0 {
      FirstSuccessNone(server, start + 1, tries - 1);
    }
  }

  lemma BulkStepDone(st: IndexState, server: nat -> BulkReply, batch: seq<Action>, j: nat)
    requires Fresh(st) && FirstSuccess(server, st.attempts, MaxAttempts) == Some(j)
    ensures BulkStep(st, server, batch).0.docs == Inserted(st.docs, st.nextId, Sources(batch))
    ensures BulkStep(st, server, batch).0.nextId == st.nextId + |batch|
    ensures BulkStep(st, server, batch).0.attempts == st.attempts + j + 1
    ensures BulkStep(st, server, batch).1 == Some(|batch|)
  {
  }

  lemma BulkStepFailed(st: IndexState, server: nat -> BulkReply, batch: seq<Action>)
    requires Fresh(st) && FirstSuccess(server, st.attempts, MaxAttempts) == None
    ensures BulkStep(st, server, batch).0.docs == st.docs
    ensures BulkStep(st, server, batch).0.nextId == st.nextId
    ensures BulkStep(st, server, batch).0.attempts == st.attempts + MaxAttempts
    ensures BulkStep(st, server, batch).1 == None
  {
  }

  lemma SnocAssoc<T>(a: seq<T>, b: seq<T>, x: T)
    ensures a + b + [x] == a + (b + [x])
  {
  }
}
