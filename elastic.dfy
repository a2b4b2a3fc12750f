/**
  `ElasticObj`: a client bound to one index. Its fields stand for the state
  of that index (documents and the ids the engine will hand out), for the
  bulk helper's answers, and for the scroll cursor the client keeps between
  pages.
 */
module Elastic {
  import opened Options
  import opened Cells
  import opened Batching

  /** One search hit: the document id and its stored source. */
  datatype Hit = Hit(id: DocId, source: Record)

  /** A decoded response body of a scroll request: the `_scroll_id` it
      carries, if any, whether it holds an `error` entry, and its hits. */
  datatype ScrollBody = ScrollBody(scrollId: Option<string>, error: bool, hits: seq<Hit>)

  /** What a POST of the scroll API brings back: the request raises, or a
      status code with a body that decodes as JSON (`Some`) or does not. */
  datatype HttpReply = TransportError | Response(status: nat, body: Option<ScrollBody>)

  /** The HTTP requests the client sends for scrolling. */
  datatype Request =
    | FirstPage(index: string, scroll: string, size: nat)
    | NextPage(scroll: string, scrollId: string)

  /** A Python dict from document id to source, with its insertion order. */
  datatype HitDict = HitDict(ids: seq<DocId>, sources: map<DocId, Record>)
  {
    ghost predicate Ordered() {
      && (forall i, j :: 0 <= i < j < |ids| ==> ids[i] != ids[j])
      && (forall id :: id in sources <==> id in ids)
    }
  }

  /** `d[id] = source`: a new id goes to the end, a known one keeps its place. */
  function Put(d: HitDict, id: DocId, source: Record): (d': HitDict)
    requires d.Ordered()
    ensures d'.Ordered()
    ensures d'.sources == d.sources[id := source]
    ensures id in d.sources ==> d'.ids == d.ids
    ensures id !in d.sources ==> d'.ids == d.ids + [id]
  {
    if id in d.sources then d.(sources := d.sources[id := source])
    else HitDict(d.ids + [id], d.sources[id := source])
  }

  /** The dict built from the hits of one response, in hit order. */
  function HitsDict(hits: seq<Hit>): (d: HitDict)
    ensures d.Ordered()
  {
    if hits == [] then HitDict([], map[])
    else
      var last := hits[|hits| - 1];
      Put(HitsDict(hits[..|hits| - 1]), last.id, last.source)
  }

  /** `dict.values()`: the sources in insertion order. */
  function Values(d: HitDict): (vs: seq<Record>)
    requires d.Ordered()
    ensures |vs| == |d.ids|
    ensures forall i :: 0 <= i < |d.ids| ==> vs[i] == d.sources[d.ids[i]]
  {
    seq(|d.ids|, i requires 0 <= i < |d.ids| => d.sources[d.ids[i]])
  }

  /** The dict of a page has one entry per distinct hit id, and it is empty
      exactly when there are no hits. */
  lemma {:induction false} HitsDictKeys(hits: seq<Hit>)
    ensures forall id :: id in HitsDict(hits).sources <==> exists i :: 0 <= i < |hits| && hits[i].id == id
    ensures |HitsDict(hits).ids| <= |hits|
    ensures HitsDict(hits).ids == [] <==> hits == []
  {
    if hits != [] {
      var init := hits[..|hits| - 1];
      HitsDictKeys(init);
      assert forall i :: 0 <= i < |init| ==> init[i] == hits[i];
    }
  }

  /** Each id holds the source of the last hit that carries it. */
  lemma {:induction false} HitsDictValue(hits: seq<Hit>, i: nat)
    requires i < |hits| && forall j :: i < j < |hits| ==> hits[j].id != hits[i].id
    ensures hits[i].id in HitsDict(hits).sources
    ensures HitsDict(hits).sources[hits[i].id] == hits[i].source
  {
    if i < |hits| - 1 {
      var init := hits[..|hits| - 1];
      assert init[i] == hits[i];
      HitsDictValue(init, i);
    }
  }

  /** When the hits carry distinct ids, the dict keeps them all, in hit
      order. */
  lemma {:induction false} HitsDictDistinct(hits: seq<Hit>)
    requires forall i, j :: 0 <= i < j < |hits| ==> hits[i].id != hits[j].id
    ensures HitsDict(hits).ids == seq(|hits|, i requires 0 <= i < |hits| => hits[i].id)
  {
    if hits != [] {
      var init, last := hits[..|hits| - 1], hits[|hits| - 1];
      assert forall i :: 0 <= i < |init| ==> init[i] == hits[i];
      HitsDictDistinct(init);
      HitsDictKeys(init);
      assert last.id !in HitsDict(init).sources;
      assert seq(|hits|, i requires 0 <= i < |hits| => hits[i].id)
             == seq(|init|, i requires 0 <= i < |init| => init[i].id) + [last.id];
    }
  }

  /** ... and so its values are the hits' sources, in hit order. */
  lemma HitsDictValues(hits: seq<Hit>)
    requires forall i, j :: 0 <= i < j < |hits| ==> hits[i].id != hits[j].id
    ensures Values(HitsDict(hits)) == seq(|hits|, i requires 0 <= i < |hits| => hits[i].source)
  {
    HitsDictDistinct(hits);
    forall i | 0 <= i < |hits|
      ensures Values(HitsDict(hits))[i] == hits[i].source
    {
      HitsDictValue(hits, i);
    }
  }

  /** The scroll id the client holds after a response: a 200 response whose
      body decodes and carries `_scroll_id` replaces it (even when the body
      also reports an error); anything else leaves it as it was. */
  function Cursor(stored: Option<string>, reply: HttpReply): (id: Option<string>)
    ensures id != stored ==> reply.Response? && reply.status == 200 && reply.body.Some? && id == reply.body.value.scrollId
    ensures stored.Some? ==> id.Some?
  {
    if reply.Response? && reply.status == 200 && reply.body.Some? && reply.body.value.scrollId.Some?
    then reply.body.value.scrollId
    else stored
  }

  lemma CursorSpec(stored: Option<string>, reply: HttpReply)
    ensures Cursor(stored, reply) != stored ==> reply.Response? && reply.status == 200
    ensures (reply.Response? && reply.status == 200 && reply.body.Some? && reply.body.value.scrollId.Some?)
              ==> Cursor(stored, reply) == reply.body.value.scrollId
    ensures (reply.TransportError? || reply.status != 200 || reply.body.None?) ==> Cursor(stored, reply) == stored
    ensures stored.Some? ==> Cursor(stored, reply).Some?
  {
  }

  /** The dict `scroll_search` returns for a response, when it returns: the
      hits of a 200 response whose body decodes and reports no error; empty
      otherwise (status other than 200, undecodable body, error body, or a
      request that raised inside the `try`). */
  function PageOf(reply: HttpReply): (d: HitDict)
    ensures d.Ordered()
    ensures d.ids != [] ==> reply.Response? && reply.body.Some? && |d.ids| <= |reply.body.value.hits|
  {
    if reply.Response? && reply.status == 200 && reply.body.Some? && !reply.body.value.error
    then HitsDictKeys(reply.body.value.hits); HitsDict(reply.body.value.hits)
    else HitDict([], map[])
  }

  /** A page whose hits carry distinct ids lists them in hit order, each
      with its hit's source. */
  lemma PageOfHitOrder(reply: HttpReply)
    requires reply.Response? && reply.status == 200 && reply.body.Some? && !reply.body.value.error
    requires var hits := reply.body.value.hits;
             forall i, j :: 0 <= i < j < |hits| ==> hits[i].id != hits[j].id
    ensures var hits := reply.body.value.hits;
            && PageOf(reply).ids == seq(|hits|, i requires 0 <= i < |hits| => hits[i].id)
            && Values(PageOf(reply)) == seq(|hits|, i requires 0 <= i < |hits| => hits[i].source)
  {
    HitsDictDistinct(reply.body.value.hits);
    HitsDictValues(reply.body.value.hits);
  }

  lemma PageOfSpec(reply: HttpReply)
    ensures PageOf(reply).ids != [] <==>
              reply.Response? && reply.status == 200 && reply.body.Some? && !reply.body.value.error
              && reply.body.value.hits != []
  {
    if reply.Response? && reply.status == 200 && reply.body.Some? && !reply.body.value.error {
      HitsDictKeys(reply.body.value.hits);
    }
  }

  /** `scroll_search` either returns a dict of hits, or raises before sending
      anything because `json_data` was never bound. */
  datatype Scrolled = Page(hits: HitDict) | Unbound

  /** The caller's query dict; the first page writes its `size` entry. */
  class Query {
    var size: Option<nat>

    constructor ()
      ensures size == None
    {
      size := None;
    }
  }

  /** Whether the engine takes a `match` query on `value`: a query with no
      text (a `None` cell) is refused, and the client raises `RequestError`. */
  predicate Searchable(value: Value) {
    value != Null
  }

  /** The ids of the documents whose `field` equals `value`, as the `match`
      query of `search_by_single_field` is read in this model. */
  function Matches(docs: map<DocId, Record>, field: Key, value: Value): set<DocId> {
    set id | id in docs && field in docs[id] && docs[id][field] == value
  }

  class ElasticObj {
    const indexName: string
    const indexType: string
    const propertyList: seq<Key>
    /** The answer of the bulk helper to its `n`-th call on this index. */
    const bulkServer: nat -> BulkReply

    var docs: map<DocId, Record>
    var nextId: DocId
    /** How many times the bulk helper has been called so far. */
    var attempts: nat
    var scrollId: Option<string>

    /** The item lists given to `bulk_index_data`, one per call. */
    ghost var calls: seq<seq<Record>>
    /** The action lists given to `__bulk`, one per call. */
    ghost var batches: seq<seq<Action>>
    /** The scroll requests sent over HTTP. */
    ghost var sent: seq<Request>

    function State(): IndexState
      reads this
    {
      IndexState(docs, nextId, attempts)
    }

    /** Every stored document has an id below the next one to be handed out. */
    ghost predicate Valid()
      reads this
    {
      Fresh(State())
    }

    /** A client for `indexName`, given the index's property names, its
        documents, and the answers its bulk helper will give. */
    constructor (indexName: string, propertyList: seq<Key>, docs: map<DocId, Record>, nextId: DocId,
                 bulkServer: nat -> BulkReply)
      requires forall id :: id in docs ==> id < nextId
      ensures Valid()
      ensures this.indexName == indexName && indexType == "_doc" && this.propertyList == propertyList
      ensures this.docs == docs && this.nextId == nextId && this.bulkServer == bulkServer
      ensures attempts == 0 && scrollId == None
      ensures calls == [] && batches == [] && sent == []
    {
      this.indexName := indexName;
      indexType := "_doc";
      this.propertyList := propertyList;
      this.bulkServer := bulkServer;
      this.docs := docs;
      this.nextId := nextId;
      attempts := 0;
      scrollId := None;
      calls := [];
      batches := [];
      sent := [];
    }

    /** `is_property`: scans the record's fields and stops at the first one
        the index does not know. */
    method IsProperty(body: Record) returns (ret: bool)
      ensures ret == Known(propertyList, body)
    {
      ret := true;
      var pending := body.Keys;
      while pending != {}
        invariant pending <= body.Keys
        invariant forall k :: k in body && k !in pending ==> k in propertyList
        decreases |pending|
      {
        var key :| key in pending;
        if key !in propertyList {
          ret := false;
          break;
        }
        pending := pending - {key};
      }
    }

    /** `__bulk`: up to three calls of the bulk helper, stopping at the first
        that returns. */
    method Bulk(actions: seq<Action>) returns (success: Option<nat>)
      requires Fresh(State())
      modifies this
      ensures docs == BulkStep(old(State()), bulkServer, actions).0.docs
      ensures nextId == BulkStep(old(State()), bulkServer, actions).0.nextId
      ensures attempts == BulkStep(old(State()), bulkServer, actions).0.attempts
      ensures success == BulkStep(old(State()), bulkServer, actions).1
      ensures batches == old(batches) + [actions]
      ensures calls == old(calls) && sent == old(sent) && scrollId == old(scrollId)
    {
      ghost var st0 := IndexState(docs, nextId, attempts);
      success := None;
      var i := 0;
      while i < MaxAttempts
        invariant 0 <= i <= MaxAttempts
        invariant attempts == st0.attempts + i
        invariant forall a :: st0.attempts <= a < attempts ==> bulkServer(a) == Raised
        invariant docs == st0.docs && nextId == st0.nextId
        invariant calls == old(calls) && sent == old(sent) && scrollId == old(scrollId)
        invariant batches == old(batches)
        invariant success == None
      {
        var reply := bulkServer(attempts);
        attempts := attempts + 1;
        if reply == Done {
          FirstSuccessAt(bulkServer, st0.attempts, MaxAttempts, i);
          BulkStepDone(st0, bulkServer, actions, i);
          docs := Inserted(docs, nextId, Sources(actions));
          nextId := nextId + |actions|;
          success := Some(|actions|);
          break;
        }
        i := i + 1;
      }
      if success.None? {
        FirstSuccessNone(bulkServer, st0.attempts, MaxAttempts);
        BulkStepFailed(st0, bulkServer, actions);
      }
      batches := batches + [actions];
    }

    /** Sends one full or final batch, keeping the index state in step with
        the batches sent so far. */
    method Flush(actions: seq<Action>, ghost st0: IndexState, ghost full: seq<seq<Action>>)
      requires Fresh(st0) && State() == ApplyBatches(st0, bulkServer, full)
      modifies this
      ensures Fresh(State()) && State() == ApplyBatches(st0, bulkServer, full + [actions])
      ensures batches == old(batches) + [actions]
      ensures calls == old(calls) && sent == old(sent) && scrollId == old(scrollId)
    {
      ApplyBatchesSnoc(st0, bulkServer, full, actions);
      var _ := Bulk(actions);
    }

    /** One pass of the loop of `bulk_index_data`: a record that passes the
        field check joins the pending actions, and a thousand pending actions
        are sent. */
    method Offer(item: Record, actions: seq<Action>, ghost st0: IndexState, ghost log0: seq<seq<Action>>,
                 ghost full: seq<seq<Action>>, ghost acc: seq<Record>)
      returns (actions': seq<Action>, ghost full': seq<seq<Action>>)
      requires Fresh(st0) && State() == ApplyBatches(st0, bulkServer, full)
      requires |actions| < BatchSize && forall p :: p in full ==> |p| == BatchSize
      requires Concat(full) + actions == ToActions(indexName, indexType, acc)
      requires batches == log0 + full
      modifies this
      ensures State() == ApplyBatches(st0, bulkServer, full')
      ensures |actions'| < BatchSize && forall p :: p in full' ==> |p| == BatchSize
      ensures Concat(full') + actions'
              == ToActions(indexName, indexType, acc + if Known(propertyList, item) then [item] else [])
      ensures batches == log0 + full'
      ensures calls == old(calls) && sent == old(sent) && scrollId == old(scrollId)
    {
      var ok := IsProperty(item);
      if ok {
        ToActionsSnoc(indexName, indexType, acc, item);
        actions', full' := FlushIfFull(actions + [Action(indexName, indexType, item)], st0, log0, full,
                                       ToActions(indexName, indexType, acc + [item]));
      } else {
        actions', full' := actions, full;
        assert acc + [] == acc;
      }
    }

    /** A thousand pending actions are sent, and the pending list starts over. */
    method FlushIfFull(actions: seq<Action>, ghost st0: IndexState, ghost log0: seq<seq<Action>>,
                       ghost full: seq<seq<Action>>, ghost pending: seq<Action>)
      returns (actions': seq<Action>, ghost full': seq<seq<Action>>)
      requires Fresh(st0) && State() == ApplyBatches(st0, bulkServer, full)
      requires |actions| <= BatchSize && forall p :: p in full ==> |p| == BatchSize
      requires Concat(full) + actions == pending
      requires batches == log0 + full
      modifies this
      ensures State() == ApplyBatches(st0, bulkServer, full')
      ensures |actions'| < BatchSize && forall p :: p in full' ==> |p| == BatchSize
      ensures Concat(full') + actions' == pending
      ensures batches == log0 + full'
      ensures calls == old(calls) && sent == old(sent) && scrollId == old(scrollId)
    {
      actions', full' := actions, full;
      if |actions| >= BatchSize {
        ConcatSnoc(full, actions);
        Flush(actions, st0, full);
        SnocAssoc(log0, full, actions);
        full' := full + [actions];
        actions' := [];
      }
    }

    /** `bulk_index_data`: the accepted records go out in bulk requests of a
        thousand, and the remainder in one last request. */
    method BulkIndexData(items: seq<Record>)
      requires Valid()
      modifies this
      ensures Valid()
      ensures calls == old(calls) + [items]
      ensures batches == old(batches) + BatchesOf(indexName, indexType, propertyList, items)
      ensures State() == ApplyBatches(old(State()), bulkServer, BatchesOf(indexName, indexType, propertyList, items))
      ensures sent == old(sent) && scrollId == old(scrollId)
    {
      var actions: seq<Action> := [];
      ghost var full: seq<seq<Action>> := [];
      var i := 0;
      assert items[..0] == [];
      assert State() == ApplyBatches(old(State()), bulkServer, full);
      while i < |items|
        invariant 0 <= i <= |items|
        invariant |actions| < BatchSize
        invariant forall p :: p in full ==> |p| == BatchSize
        invariant Concat(full) + actions == ToActions(indexName, indexType, Accepted(propertyList, items[..i]))
        invariant batches == old(batches) + full
        invariant State() == ApplyBatches(old(State()), bulkServer, full)
        invariant calls == old(calls) && sent == old(sent) && scrollId == old(scrollId)
      {
        AcceptedStep(propertyList, items, i);
        actions, full := Offer(items[i], actions, old(State()), old(batches), full, Accepted(propertyList, items[..i]));
        i := i + 1;
      }
      assert items[..i] == items;
      FlushRest(items, actions, old(State()), old(batches), full);
      calls := calls + [items];
    }

    /** The end of `bulk_index_data`: what is still pending goes out in one
        last request, so that the requests sent are the chunks of the
        accepted records. */
    method FlushRest(items: seq<Record>, actions: seq<Action>, ghost st0: IndexState, ghost log0: seq<seq<Action>>,
                     ghost full: seq<seq<Action>>)
      requires Fresh(st0) && State() == ApplyBatches(st0, bulkServer, full)
      requires |actions| < BatchSize && forall p :: p in full ==> |p| == BatchSize
      requires Concat(full) + actions == ToActions(indexName, indexType, Accepted(propertyList, items))
      requires batches == log0 + full
      modifies this
      ensures batches == log0 + BatchesOf(indexName, indexType, propertyList, items)
      ensures State() == ApplyBatches(st0, bulkServer, BatchesOf(indexName, indexType, propertyList, items))
      ensures calls == old(calls) && sent == old(sent) && scrollId == old(scrollId)
    {
      ChunksOfFull(full, actions);
      if |actions| > 0 {
        Flush(actions, st0, full);
        SnocAssoc(log0, full, actions);
      } else {
        assert full + [] == full;
      }
    }

    /** `search_by_single_field`: the documents whose `field` equals `value`,
        by id, or `None` when the engine refuses the query (the
        `RequestError` is not caught). */
    function SearchBySingleField(field: Key, value: Value): (rs: Option<map<DocId, Record>>)
      reads this
      ensures rs.Some? <==> Searchable(value)
      ensures rs.Some? ==> rs.value.Keys == Matches(docs, field, value)
      ensures rs.Some? ==> forall id :: id in rs.value ==> rs.value[id] == docs[id] && rs.value[id][field] == value
    {
      if !Searchable(value) then None
      else Some(map id | id in docs && field in docs[id] && docs[id][field] == value :: docs[id])
    }

    /** `delete_by_id`: removes one document and reports whether it was there. */
    method DeleteById(id: DocId) returns (deleted: bool)
      requires Valid()
      modifies this
      ensures Valid()
      ensures deleted == (id in old(docs))
      ensures docs == old(docs) - {id}
      ensures nextId == old(nextId) && attempts == old(attempts) && scrollId == old(scrollId)
      ensures calls == old(calls) && batches == old(batches) && sent == old(sent)
    {
      deleted := id in docs;
      docs := docs - {id};
    }

    /** `scroll_search`: the first page sends the query with its `size`; a
        later page sends the stored scroll id, and raises before sending when
        there is none. A 200 response with a `_scroll_id` replaces the stored
        id; the hits of a good response are returned as a dict. */
    method ScrollSearch(query: Query, scroll: string, size: nat, isFirstPage: bool, reply: HttpReply)
      returns (r: Scrolled)
      modifies this, query
      ensures r.Unbound? <==> !isFirstPage && old(scrollId).None?
      ensures r.Unbound? ==> scrollId == old(scrollId) && sent == old(sent) && query.size == old(query.size)
      ensures r.Page? ==> r.hits == PageOf(reply) && scrollId == Cursor(old(scrollId), reply)
      ensures isFirstPage ==> query.size == Some(size) && sent == old(sent) + [FirstPage(indexName, scroll, size)]
      ensures !isFirstPage && old(scrollId).Some? ==>
                query.size == old(query.size) && sent == old(sent) + [NextPage(scroll, old(scrollId).value)]
      ensures docs == old(docs) && nextId == old(nextId) && attempts == old(attempts)
      ensures calls == old(calls) && batches == old(batches)
    {
      if isFirstPage {
        query.size := Some(size);
        sent := sent + [FirstPage(indexName, scroll, size)];
      } else if scrollId.Some? {
        sent := sent + [NextPage(scroll, scrollId.value)];
      } else {
        return Unbound;
      }
      var all := HitDict([], map[]);
      if reply.Response? && reply.status == 200 && reply.body.Some? {
        var body := reply.body.value;
        if body.scrollId.Some? {
          scrollId := body.scrollId;
        }
        if !body.error {
          var i := 0;
          while i < |body.hits|
            invariant 0 <= i <= |body.hits|
            invariant all == HitsDict(body.hits[..i])
          {
            assert body.hits[..i + 1][..i] == body.hits[..i];
            all := Put(all, body.hits[i].id, body.hits[i].source);
            i := i + 1;
          }
          assert body.hits[..i] == body.hits;
        }
      }
      r := Page(all);
    }
  }
}
