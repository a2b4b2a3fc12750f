/**
  `dump`: every document of a source index copied into a target index, page
  by page, through a scroll cursor on the source and `bulk_index_data` on the
  target.
 */
module Transfer {
  import opened Options
  import opened Cells
  import opened Batching
  import opened Elastic

  /** The answer to the `k`-th scroll request of a copy; past the answers
      given, the source answers with an empty page. */
  function ReplyAt(replies: seq<HttpReply>, k: nat): HttpReply {
    if k < |replies| then replies[k] else Response(200, Some(ScrollBody(None, false, [])))
  }

  /** The pages handed to the target from `page` on, the `k`-th request
      being the next one, and whether the copy ends by raising: a later page
      asked for while no scroll id is held raises before it is sent. */
  function CopyFrom(stored: Option<string>, replies: seq<HttpReply>, k: nat, page: HitDict)
    : (out: (seq<seq<Record>>, bool))
    requires page.Ordered() && (k > |replies| ==> page.ids == [])
    ensures out.0 == [] <==> page.ids == []
    ensures out.0 != [] ==> |out.0| + k <= |replies| + 1
    ensures out.1 ==> out.0 != []
    decreases |replies| + 1 - k
  {
    if page.ids == [] then ([], false)
    else if stored.None? then ([Values(page)], true)
    else
      var reply := ReplyAt(replies, k);
      var rest := CopyFrom(Cursor(stored, reply), replies, k + 1, PageOf(reply));
      ([Values(page)] + rest.0, rest.1)
  }

  /** The whole copy, starting from the first page of the query. */
  function Copied(stored: Option<string>, replies: seq<HttpReply>): (copy: (seq<seq<Record>>, bool))
    ensures copy.0 == [] <==> PageOf(ReplyAt(replies, 0)).ids == []
    ensures |copy.0| <= |replies|
    ensures copy.1 ==> copy.0 != []
  {
    var first := ReplyAt(replies, 0);
    CopyFrom(Cursor(stored, first), replies, 1, PageOf(first))
  }

  /** Every page handed to the target is non-empty. */
  lemma {:induction false} CopyFromNonEmpty(stored: Option<string>, replies: seq<HttpReply>, k: nat, page: HitDict)
    requires page.Ordered() && (k > |replies| ==> page.ids == [])
    ensures forall p :: p in CopyFrom(stored, replies, k, page).0 ==> p != []
    decreases |replies| + 1 - k
  {
    if page.ids != [] && stored.Some? {
      var reply := ReplyAt(replies, k);
      CopyFromNonEmpty(Cursor(stored, reply), replies, k + 1, PageOf(reply));
    }
  }

  /** A page with hits is handed over; the next one is asked for with the
      stored scroll id, or the request raises when there is none. */
  lemma CopyFromStep(stored: Option<string>, replies: seq<HttpReply>, k: nat, page: HitDict)
    requires page.Ordered() && (k > |replies| ==> page.ids == []) && page.ids != []
    ensures stored.None? ==> CopyFrom(stored, replies, k, page) == ([Values(page)], true)
    ensures stored.Some? ==>
              var reply := ReplyAt(replies, k);
              var rest := CopyFrom(Cursor(stored, reply), replies, k + 1, PageOf(reply));
              CopyFrom(stored, replies, k, page).0 == [Values(page)] + rest.0
              && CopyFrom(stored, replies, k, page).1 == rest.1
  {
  }

  /** The scroll id the source holds once the copy stops, from the page in
      hand on: a held id is never given up. */
  function CursorAfter(stored: Option<string>, replies: seq<HttpReply>, k: nat, page: HitDict): (id: Option<string>)
    requires page.Ordered() && (k > |replies| ==> page.ids == [])
    ensures stored.Some? ==> id.Some?
    decreases |replies| + 1 - k
  {
    if page.ids == [] || stored.None? then stored
    else
      var reply := ReplyAt(replies, k);
      CursorAfter(Cursor(stored, reply), replies, k + 1, PageOf(reply))
  }

  /** The requests the source is sent from the page in hand on: at most one
      per answer still to come. */
  function SentFrom(stored: Option<string>, replies: seq<HttpReply>, k: nat, page: HitDict): (sent: seq<Request>)
    requires page.Ordered() && (k > |replies| ==> page.ids == [])
    ensures sent != [] ==> |sent| + k <= |replies| + 1
    decreases |replies| + 1 - k
  {
    if page.ids == [] || stored.None? then []
    else
      var reply := ReplyAt(replies, k);
      [NextPage("5m", stored.value)] + SentFrom(Cursor(stored, reply), replies, k + 1, PageOf(reply))
  }

  /** The source's side of the whole copy: the scroll id it is left with and
      every request it is sent, the first one included. */
  function ScrollLog(index: string, stored: Option<string>, replies: seq<HttpReply>)
    : (log: (Option<string>, seq<Request>))
    ensures log.1 != [] && log.1[0] == FirstPage(index, "5m", 10000)
    ensures forall i :: 1 <= i < |log.1| ==> log.1[i].NextPage?
  {
    var first := ReplyAt(replies, 0);
    var sent := SentFrom(Cursor(stored, first), replies, 1, PageOf(first));
    SentNext(Cursor(stored, first), replies, 1, PageOf(first));
    (CursorAfter(Cursor(stored, first), replies, 1, PageOf(first)), [FirstPage(index, "5m", 10000)] + sent)
  }

  /** Past the first request, every request of a copy asks for a next page. */
  lemma {:induction false} SentNext(stored: Option<string>, replies: seq<HttpReply>, k: nat, page: HitDict)
    requires page.Ordered() && (k > |replies| ==> page.ids == [])
    ensures forall r :: r in SentFrom(stored, replies, k, page) ==> r.NextPage? && r.scroll == "5m"
    decreases |replies| + 1 - k
  {
    if page.ids != [] && stored.Some? {
      var reply := ReplyAt(replies, k);
      SentNext(Cursor(stored, reply), replies, k + 1, PageOf(reply));
    }
  }

  /** What the loop of `dump` keeps: `page` is the page in hand, the `k`-th
      request the next one, `sent` the requests sent so far; the pages
      already handed over followed by those still to come are the whole
      copy, and the requests sent followed by those still to come are the
      whole log. */
  ghost predicate Copying(stored: Option<string>, sent: seq<Request>, replies: seq<HttpReply>, k: nat, page: HitDict,
                          copied: seq<seq<Record>>, total: (seq<seq<Record>>, bool), log: (Option<string>, seq<Request>))
  {
    && 1 <= k && page.Ordered() && (k > |replies| ==> page.ids == [])
    && copied + CopyFrom(stored, replies, k, page).0 == total.0
    && CopyFrom(stored, replies, k, page).1 == total.1
    && CursorAfter(stored, replies, k, page) == log.0
    && sent + SentFrom(stored, replies, k, page) == log.1
  }

  /** The copy starts with the first page in hand and the first request sent. */
  lemma CopyStart(index: string, stored: Option<string>, sent: seq<Request>, replies: seq<HttpReply>)
    ensures var first := ReplyAt(replies, 0);
            var log := ScrollLog(index, stored, replies);
            Copying(Cursor(stored, first), sent + [FirstPage(index, "5m", 10000)], replies, 1, PageOf(first),
                    [], Copied(stored, replies), (log.0, sent + log.1))
  {
    var first := ReplyAt(replies, 0);
    PageOfSpec(first);
    var more := SentFrom(Cursor(stored, first), replies, 1, PageOf(first));
    assert (sent + [FirstPage(index, "5m", 10000)]) + more == sent + ([FirstPage(index, "5m", 10000)] + more);
  }

  /** Handing over a page with hits and asking for the next one keeps the
      loop's invariant, or ends the copy by raising when no scroll id is held. */
  lemma CopyAdvance(stored: Option<string>, sent: seq<Request>, replies: seq<HttpReply>, k: nat, page: HitDict,
                    copied: seq<seq<Record>>, total: (seq<seq<Record>>, bool), log: (Option<string>, seq<Request>))
    requires Copying(stored, sent, replies, k, page, copied, total, log) && page.ids != []
    ensures stored.None? ==> copied + [Values(page)] == total.0 && total.1 && stored == log.0 && sent == log.1
    ensures stored.Some? ==>
              var reply := ReplyAt(replies, k);
              Copying(Cursor(stored, reply), sent + [NextPage("5m", stored.value)], replies, k + 1, PageOf(reply),
                      copied + [Values(page)], total, log)
  {
    CopyFromStep(stored, replies, k, page);
    if stored.Some? {
      var reply := ReplyAt(replies, k);
      PageOfSpec(reply);
      var rest := CopyFrom(Cursor(stored, reply), replies, k + 1, PageOf(reply));
      assert (copied + [Values(page)]) + rest.0 == copied + ([Values(page)] + rest.0);
      var more := SentFrom(Cursor(stored, reply), replies, k + 1, PageOf(reply));
      assert (sent + [NextPage("5m", stored.value)]) + more == sent + ([NextPage("5m", stored.value)] + more);
    }
  }

  /** An empty page ends the copy normally. */
  lemma CopyDone(stored: Option<string>, sent: seq<Request>, replies: seq<HttpReply>, k: nat, page: HitDict,
                 copied: seq<seq<Record>>, total: (seq<seq<Record>>, bool), log: (Option<string>, seq<Request>))
    requires Copying(stored, sent, replies, k, page, copied, total, log) && page.ids == []
    ensures copied == total.0 && !total.1 && stored == log.0 && sent == log.1
  {
  }

  /** An empty first page copies nothing and ends normally. */
  lemma EmptyFirstPage(stored: Option<string>, replies: seq<HttpReply>)
    requires PageOf(ReplyAt(replies, 0)).ids == []
    ensures Copied(stored, replies) == ([], false)
  {
  }

  /** A reply a healthy source gives: status 200, a body without error, and
      a scroll id. */
  predicate Healthy(reply: HttpReply) {
    reply.Response? && reply.status == 200 && reply.body.Some?
    && !reply.body.value.error && reply.body.value.scrollId.Some?
  }

  /** The pages of the answers from the `k`-th on, up to the first empty one. */
  function PagesFrom(replies: seq<HttpReply>, k: nat): (ps: seq<seq<Record>>)
    decreases |replies| + 1 - k
  {
    if k >= |replies| || PageOf(replies[k]).ids == [] then []
    else [Values(PageOf(replies[k]))] + PagesFrom(replies, k + 1)
  }

  lemma {:induction false} CopyFromHealthy(stored: Option<string>, replies: seq<HttpReply>, k: nat)
    requires 1 <= k <= |replies| && stored.Some?
    requires forall i :: 0 <= i < |replies| ==> Healthy(replies[i])
    ensures CopyFrom(stored, replies, k, PageOf(replies[k - 1])) == (PagesFrom(replies, k - 1), false)
    decreases |replies| + 1 - k
  {
    var page := PageOf(replies[k - 1]);
    if page.ids != [] {
      var reply := ReplyAt(replies, k);
      if k < |replies| {
        CopyFromHealthy(Cursor(stored, reply), replies, k + 1);
      } else {
        assert PageOf(reply).ids == [];
      }
    }
  }

  /** With a healthy source the copy never raises, and the target receives,
      in order, exactly the pages up to the first empty one. */
  lemma CopiedHealthy(stored: Option<string>, replies: seq<HttpReply>)
    requires forall i :: 0 <= i < |replies| ==> Healthy(replies[i])
    ensures Copied(stored, replies) == (PagesFrom(replies, 0), false)
  {
    if replies != [] {
      CopyFromHealthy(Cursor(stored, replies[0]), replies, 1);
    }
  }

  /** With a healthy source and a bulk helper that always returns, the
      target keeps every document it held and gains, under consecutive fresh
      ids, exactly the accepted records of the source's pages, in order. */
  lemma DumpHealthy(stored: Option<string>, replies: seq<HttpReply>, st: IndexState, server: nat -> BulkReply,
                    index: string, docType: string, props: seq<Key>)
    requires forall i :: 0 <= i < |replies| ==> Healthy(replies[i])
    requires Fresh(st) && forall a :: server(a) == Done
    ensures var after := ApplyCalls(st, server, index, docType, props, Copied(stored, replies).0);
            && after.docs == Inserted(st.docs, st.nextId, AcceptedAll(props, PagesFrom(replies, 0)))
            && after.nextId == st.nextId + |AcceptedAll(props, PagesFrom(replies, 0))|
  {
    CopiedHealthy(stored, replies);
    ApplyCallsAllDone(st, server, index, docType, props, PagesFrom(replies, 0));
  }

  /** A first page with hits but without a scroll id, on a client holding
      none: that page is copied and the next request raises. */
  lemma FirstPageWithoutCursor(replies: seq<HttpReply>)
    requires replies != [] && replies[0].Response? && replies[0].status == 200 && replies[0].body.Some?
    requires replies[0].body.value.scrollId.None? && !replies[0].body.value.error
    requires replies[0].body.value.hits != []
    ensures Copied(None, replies) == ([Values(PageOf(replies[0]))], true)
  {
    PageOfSpec(replies[0]);
  }

  /** `dump`: the first request asks for pages of 10000 hits; while a page
      holds hits, its values go to the target and the next page is asked for.
      `crashed` tells that a later request raised for want of a scroll id. */
  method Dump(src: ElasticObj, dest: ElasticObj, query: Query, replies: seq<HttpReply>) returns (crashed: bool)
    requires src != dest && dest.Valid()
    modifies src, dest, query
    ensures crashed == Copied(old(src.scrollId), replies).1
    ensures dest.Valid()
    ensures dest.calls == old(dest.calls) + Copied(old(src.scrollId), replies).0
    ensures dest.batches == old(dest.batches)
              + AllBatches(dest.indexName, dest.indexType, dest.propertyList, Copied(old(src.scrollId), replies).0)
    ensures dest.State() == ApplyCalls(old(dest.State()), dest.bulkServer, dest.indexName, dest.indexType,
                                       dest.propertyList, Copied(old(src.scrollId), replies).0)
    ensures dest.scrollId == old(dest.scrollId) && dest.sent == old(dest.sent)
    ensures src.scrollId == ScrollLog(src.indexName, old(src.scrollId), replies).0
    ensures src.sent == old(src.sent) + ScrollLog(src.indexName, old(src.scrollId), replies).1
    ensures src.State() == old(src.State()) && src.calls == old(src.calls) && src.batches == old(src.batches)
    ensures query.size == Some(10000)
  {
    ghost var total := Copied(src.scrollId, replies);
    ghost var trail := ScrollLog(src.indexName, src.scrollId, replies);
    ghost var log := (trail.0, src.sent + trail.1);
    ghost var target := Target(dest.State(), dest.calls, dest.batches, dest.scrollId, dest.sent);
    CopyStart(src.indexName, src.scrollId, src.sent, replies);
    NothingReceived(target.state, dest.bulkServer, dest.indexName, dest.indexType, dest.propertyList);
    var r := src.ScrollSearch(query, "5m", 10000, true, ReplyAt(replies, 0));
    crashed := CopyPages(src, dest, query, r.hits, replies, total, log, target);
  }

  /** The loop of `dump`, from the first page on: while a page holds hits,
      its values go to the target and the next page is asked of the source. */
  method CopyPages(src: ElasticObj, dest: ElasticObj, query: Query, first: HitDict, replies: seq<HttpReply>,
                   ghost total: (seq<seq<Record>>, bool), ghost log: (Option<string>, seq<Request>),
                   ghost target: Target)
    returns (crashed: bool)
    requires src != dest && dest.Valid()
    requires Copying(src.scrollId, src.sent, replies, 1, first, [], total, log)
    requires Received(dest, target, [])
    modifies src, dest, query
    ensures crashed == total.1 && src.scrollId == log.0 && src.sent == log.1
    ensures dest.Valid() && Received(dest, target, total.0)
    ensures src.State() == old(src.State()) && src.calls == old(src.calls) && src.batches == old(src.batches)
    ensures query.size == old(query.size)
  {
    var page := first;
    ghost var copied: seq<seq<Record>> := [];
    var k := 1;
    while page.ids != []
      invariant Copying(src.scrollId, src.sent, replies, k, page, copied, total, log)
      invariant dest.Valid() && Received(dest, target, copied)
      invariant src.State() == old(src.State()) && src.calls == old(src.calls) && src.batches == old(src.batches)
      invariant query.size == old(query.size)
      decreases |replies| + 1 - k
    {
      var r := CopyPage(src, dest, query, page, replies, k, copied, total, log, target);
      copied := copied + [Values(page)];
      if r.Unbound? {
        return true;
      }
      page := r.hits;
      k := k + 1;
    }
    CopyDone(src.scrollId, src.sent, replies, k, page, copied, total, log);
    crashed := false;
  }

  /** Before any call, the target is as it was. */
  lemma NothingReceived(st: IndexState, server: nat -> BulkReply, index: string, docType: string, props: seq<Key>)
    requires Fresh(st)
    ensures ApplyCalls(st, server, index, docType, props, []) == st
    ensures AllBatches(index, docType, props, []) == []
  {
  }

  /** One more call extends the log of calls. */
  lemma CallsSnoc(log: seq<seq<Record>>, before: seq<seq<Record>>, copied: seq<seq<Record>>, items: seq<Record>)
    requires before == log + copied
    ensures before + [items] == log + (copied + [items])
  {
  }

  /** One more call's batches extend the log of a sequence of calls. */
  lemma LogSnoc(log: seq<seq<Action>>, before: seq<seq<Action>>, index: string, docType: string, props: seq<Key>,
                copied: seq<seq<Record>>, items: seq<Record>)
    requires before == log + AllBatches(index, docType, props, copied)
    ensures before + BatchesOf(index, docType, props, items) == log + AllBatches(index, docType, props, copied + [items])
  {
    AllBatchesSnoc(index, docType, props, copied, items);
  }

  /** What the target of a copy held when the copy began. */
  datatype Target = Target(state: IndexState, calls: seq<seq<Record>>, batches: seq<seq<Action>>,
                           scrollId: Option<string>, sent: seq<Request>)

  /** The target has received the pages `copied`, one `bulk_index_data`
      call each, since it was `target`: its calls, its bulk requests and its
      documents are those calls' and nothing else changed. */
  ghost predicate Received(dest: ElasticObj, target: Target, copied: seq<seq<Record>>)
    reads dest
  {
    && Fresh(target.state)
    && dest.calls == target.calls + copied
    && dest.batches == target.batches + AllBatches(dest.indexName, dest.indexType, dest.propertyList, copied)
    && dest.State() == ApplyCalls(target.state, dest.bulkServer, dest.indexName, dest.indexType, dest.propertyList, copied)
    && dest.scrollId == target.scrollId && dest.sent == target.sent
  }

  /** One pass of the loop of `dump`: the page goes to the target, and the
      next page is asked of the source with the `k`-th answer. */
  method CopyPage(src: ElasticObj, dest: ElasticObj, query: Query, page: HitDict,
                  replies: seq<HttpReply>, k: nat, ghost copied: seq<seq<Record>>,
                  ghost total: (seq<seq<Record>>, bool), ghost log: (Option<string>, seq<Request>),
                  ghost target: Target)
    returns (r: Scrolled)
    requires src != dest && dest.Valid() && page.ids != []
    requires Copying(src.scrollId, src.sent, replies, k, page, copied, total, log)
    requires Received(dest, target, copied)
    modifies src, dest, query
    ensures dest.Valid() && Received(dest, target, copied + [Values(page)])
    ensures dest.State() == ApplyBatches(old(dest.State()), dest.bulkServer,
                                         BatchesOf(dest.indexName, dest.indexType, dest.propertyList, Values(page)))
    ensures dest.calls == old(dest.calls) + [Values(page)]
    ensures dest.batches == old(dest.batches) + BatchesOf(dest.indexName, dest.indexType, dest.propertyList, Values(page))
    ensures src.State() == old(src.State()) && src.calls == old(src.calls) && src.batches == old(src.batches)
    ensures query.size == old(query.size)
    ensures r.Unbound? ==> copied + [Values(page)] == total.0 && total.1 && src.scrollId == log.0 && src.sent == log.1
    ensures r.Page? ==> Copying(src.scrollId, src.sent, replies, k + 1, r.hits, copied + [Values(page)], total, log)
  {
    CopyAdvance(src.scrollId, src.sent, replies, k, page, copied, total, log);
    Deliver(dest, Values(page), copied, target);
    r := src.ScrollSearch(query, "5m", 1000, false, ReplyAt(replies, k));
  }

  /** A page handed to the target: one more `bulk_index_data` call. */
  method Deliver(dest: ElasticObj, items: seq<Record>, ghost copied: seq<seq<Record>>, ghost target: Target)
    requires dest.Valid() && Received(dest, target, copied)
    modifies dest
    ensures dest.Valid() && Received(dest, target, copied + [items])
    ensures dest.State() == ApplyBatches(old(dest.State()), dest.bulkServer,
                                         BatchesOf(dest.indexName, dest.indexType, dest.propertyList, items))
    ensures dest.calls == old(dest.calls) + [items]
    ensures dest.batches == old(dest.batches) + BatchesOf(dest.indexName, dest.indexType, dest.propertyList, items)
  {
    ghost var calls, batches := dest.calls, dest.batches;
    ApplyCallsSnoc(target.state, dest.bulkServer, dest.indexName, dest.indexType, dest.propertyList, copied, items);
    dest.BulkIndexData(items);
    CallsSnoc(target.calls, calls, copied, items);
    LogSnoc(target.batches, batches, dest.indexName, dest.indexType, dest.propertyList, copied, items);
  }
}
