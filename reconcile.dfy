/**
  `EsData.update_insert` and `EsData.del_by_single_field`: rows are matched
  against the index by one key field, and each row is inserted, skipped, or
  inserted after the documents it matches are deleted.
 */
module Upsert {
  import opened Options
  import opened Cells
  import opened Batching
  import opened Elastic

  /** The index without the documents whose ids are given. */
  function Without(docs: map<DocId, Record>, ids: set<DocId>): (d: map<DocId, Record>)
    ensures forall id :: id in d <==> id in docs && id !in ids
    ensures forall id :: id in d ==> d[id] == docs[id]
  {
    map id | id in docs && id !in ids :: docs[id]
  }

  /** Where `update_insert` stands after some rows: the documents left after
      its deletions, the rows chosen for insertion so far, and whether a row
      lacked the key field or held no value in it (the `KeyError`, or the
      `RequestError` of its search, that ends the call before its bulk
      request). */
  datatype Plan = Plan(docs: map<DocId, Record>, added: seq<Record>, failed: bool)

  /** A row the key-field lookup goes through for: it has the key field, and
      the engine takes a search on its value. */
  predicate Keyed(row: Record, k: Key) {
    k in row && Searchable(row[k])
  }

  /** The decision for one row: insert it when there is no key field or no
      document matches; with matches, delete them all and insert it when old
      documents are to be replaced, and skip it otherwise. */
  function Decide(p: Plan, row: Record, keyWord: Option<Key>, delOld: bool): Plan
  {
    match keyWord
    case None => p.(added := p.added + [row])
    case Some(k) =>
      if !Keyed(row, k) then p.(failed := true)
      else
        var found := Matches(p.docs, k, row[k]);
        if found == {} then p.(added := p.added + [row])
        else if delOld then Plan(Without(p.docs, found), p.added + [row], false)
        else p
  }

  /** The facts about `Decide` live here rather than on `Decide` itself; the
      insert of a row that matches nothing, and the skip of a matched row
      when old documents are kept, are stated over whole calls by
      `ReconcileKeep`, `ReconcileReplaceAdded` and `ReconcileWithoutKey`.

      One decision deletes only documents of the plan and touches no other;
      it adds at most the row itself; it fails exactly on a row without the
      key field or without a value in it; it deletes only when old documents are replaced, and then
      adds the row; and a row added under a key field leaves no document
      holding its key value. */
  lemma DecideSpec(p: Plan, row: Record, keyWord: Option<Key>, delOld: bool)
    ensures var q := Decide(p, row, keyWord, delOld);
      && q.docs.Keys <= p.docs.Keys && (forall id :: id in q.docs ==> q.docs[id] == p.docs[id])
      && (q.added == p.added || q.added == p.added + [row])
      && (!p.failed ==> (q.failed <==> keyWord.Some? && !Keyed(row, keyWord.value)))
      && (q.docs != p.docs ==> keyWord.Some? && delOld && q.added == p.added + [row])
      && (keyWord.Some? && keyWord.value in row && q.added == p.added + [row] ==>
            Matches(q.docs, keyWord.value, row[keyWord.value]) == {})
  {
    if keyWord.Some? && keyWord.value in row {
      var k := keyWord.value;
      var found := Matches(p.docs, k, row[k]);
      if found != {} && delOld {
        WithoutMatches(p.docs, {}, k, row[k]);
        assert Without(p.docs, {}) == p.docs;
      }
    }
  }

  /** The deletions and the insertion list of `update_insert` over `rows`. */
  function Reconcile(docs: map<DocId, Record>, rows: seq<Record>, keyWord: Option<Key>, delOld: bool): (p: Plan)
    ensures |p.added| <= |rows|
    ensures p.docs.Keys <= docs.Keys
    ensures forall id :: id in p.docs ==> p.docs[id] == docs[id]
  {
    if rows == [] then Plan(docs, [], false)
    else
      var p := Reconcile(docs, rows[..|rows| - 1], keyWord, delOld);
      if p.failed then p else Decide(p, rows[|rows| - 1], keyWord, delOld)
  }

  lemma ReconcileStep(docs: map<DocId, Record>, rows: seq<Record>, i: nat, keyWord: Option<Key>, delOld: bool)
    requires i < |rows|
    ensures Reconcile(docs, rows[..i + 1], keyWord, delOld)
            == (var p := Reconcile(docs, rows[..i], keyWord, delOld);
                if p.failed then p else Decide(p, rows[i], keyWord, delOld))
  {
    assert rows[..i + 1][..i] == rows[..i];
  }

  /** Without a key field every row is inserted and nothing is deleted. */
  lemma {:induction false} ReconcileWithoutKey(docs: map<DocId, Record>, rows: seq<Record>, delOld: bool)
    ensures Reconcile(docs, rows, None, delOld).docs == docs
    ensures Reconcile(docs, rows, None, delOld).added == rows
    ensures !Reconcile(docs, rows, None, delOld).failed
  {
    if rows != [] {
      ReconcileWithoutKey(docs, rows[..|rows| - 1], delOld);
      assert rows == rows[..|rows| - 1] + [rows[|rows| - 1]];
    }
  }

  /** A row without the key field, or without a value in it, ends the
      call. */
  predicate AllKeyed(rows: seq<Record>, k: Key) {
    forall i :: 0 <= i < |rows| ==> Keyed(rows[i], k)
  }

  lemma {:induction false} ReconcileFails(docs: map<DocId, Record>, rows: seq<Record>, k: Key, delOld: bool)
    ensures Reconcile(docs, rows, Some(k), delOld).failed <==> !AllKeyed(rows, k)
  {
    if rows != [] {
      var init := rows[..|rows| - 1];
      ReconcileFails(docs, init, k, delOld);
      assert forall i :: 0 <= i < |init| ==> init[i] == rows[i];
    }
  }

  /** The rows that no document of `docs` matches on the key field. */
  function Unmatched(docs: map<DocId, Record>, rows: seq<Record>, k: Key): (out: seq<Record>)
    requires AllKeyed(rows, k)
    ensures |out| <= |rows|
  {
    if rows == [] then []
    else
      var last := rows[|rows| - 1];
      Unmatched(docs, rows[..|rows| - 1], k) + (if Matches(docs, k, last[k]) == {} then [last] else [])
  }

  /** Keeping old documents: nothing is deleted, and exactly the rows that
      matched nothing in the index as it was before the call are inserted, in
      order. */
  lemma {:induction false} ReconcileKeep(docs: map<DocId, Record>, rows: seq<Record>, k: Key)
    ensures Reconcile(docs, rows, Some(k), false).docs == docs
    ensures AllKeyed(rows, k) ==> Reconcile(docs, rows, Some(k), false).added == Unmatched(docs, rows, k)
  {
    if rows != [] {
      var init := rows[..|rows| - 1];
      ReconcileKeep(docs, init, k);
      assert forall i :: 0 <= i < |init| ==> init[i] == rows[i];
      if AllKeyed(rows, k) {
        assert AllKeyed(init, k);
        ReconcileFails(docs, init, k, false);
        assert Keyed(rows[|rows| - 1], k);
      }
    }
  }

  /** The documents whose key field equals the key field of some row. */
  function MatchedBy(docs: map<DocId, Record>, rows: seq<Record>, k: Key): (ids: set<DocId>)
    requires AllKeyed(rows, k)
    ensures ids <= docs.Keys
  {
    if rows == [] then {}
    else MatchedBy(docs, rows[..|rows| - 1], k) + Matches(docs, k, rows[|rows| - 1][k])
  }

  lemma MatchesWithout(docs: map<DocId, Record>, ids: set<DocId>, k: Key, v: Value)
    ensures Matches(Without(docs, ids), k, v) == Matches(docs, k, v) - ids
  {
  }

  lemma WithoutTwice(docs: map<DocId, Record>, s: set<DocId>, t: set<DocId>)
    ensures Without(Without(docs, s), t) == Without(docs, s + t)
  {
  }

  /** Replacing old documents: every row is inserted, in order. */
  lemma {:induction false} ReconcileReplaceAdded(docs: map<DocId, Record>, rows: seq<Record>, k: Key)
    requires AllKeyed(rows, k)
    ensures Reconcile(docs, rows, Some(k), true).added == rows
    ensures !Reconcile(docs, rows, Some(k), true).failed
  {
    if rows != [] {
      var init, last := rows[..|rows| - 1], rows[|rows| - 1];
      assert AllKeyed(init, k) by {
        assert forall i :: 0 <= i < |init| ==> init[i] == rows[i];
      }
      ReconcileReplaceAdded(docs, init, k);
      assert rows == init + [last];
    }
  }

  /** Replacing old documents: the documents left are those whose key field
      equals no row's key field. */
  lemma {:induction false} ReconcileReplaceDocs(docs: map<DocId, Record>, rows: seq<Record>, k: Key)
    requires AllKeyed(rows, k)
    ensures Reconcile(docs, rows, Some(k), true).docs == Without(docs, MatchedBy(docs, rows, k))
  {
    if rows == [] {
      assert Without(docs, {}) == docs;
    } else {
      var init, last := rows[..|rows| - 1], rows[|rows| - 1];
      assert AllKeyed(init, k) by {
        assert forall i :: 0 <= i < |init| ==> init[i] == rows[i];
      }
      ReconcileReplaceDocs(docs, init, k);
      ReconcileFails(docs, init, k, true);
      var s := MatchedBy(docs, init, k);
      var rest := Without(docs, s);
      var found := Matches(rest, k, last[k]);
      assert Reconcile(docs, rows, Some(k), true).docs == if found == {} then rest else Without(rest, found);
      WithoutMatches(docs, s, k, last[k]);
      if found == {} {
        assert Without(rest, found) == rest;
      }
    }
  }

  /** Deleting the matches of one more key value from what earlier deletions
      left is deleting the union of the matches from the start. */
  lemma WithoutMatches(docs: map<DocId, Record>, s: set<DocId>, k: Key, v: Value)
    ensures Without(Without(docs, s), Matches(Without(docs, s), k, v)) == Without(docs, s + Matches(docs, k, v))
  {
    MatchesWithout(docs, s, k, v);
    WithoutTwice(docs, s, Matches(Without(docs, s), k, v));
    assert s + (Matches(docs, k, v) - s) == s + Matches(docs, k, v);
  }

  /** Rows inserted by one call are not visible to the lookups of that call:
      two rows with the same key value that no document matches are both
      inserted, whatever `delOld` says. */
  lemma SameCallRowsInvisible(docs: map<DocId, Record>, a: Record, b: Record, k: Key, delOld: bool)
    requires Keyed(a, k) && Keyed(b, k) && a[k] == b[k]
    requires Matches(docs, k, a[k]) == {}
    ensures Reconcile(docs, [a, b], Some(k), delOld).added == [a, b]
    ensures Reconcile(docs, [a, b], Some(k), delOld).docs == docs
  {
    assert [a, b][..1] == [a];
    assert [a][..0] == [];
    var p0 := Reconcile(docs, [], Some(k), delOld);
    assert p0.docs == docs && p0.added == [] && !p0.failed;
    var p1 := Reconcile(docs, [a], Some(k), delOld);
    assert p1.docs == docs && p1.added == [a] && !p1.failed;
  }

  /** A row whose key cell is empty stops the call at its search, before
      anything of its own is deleted or inserted, whatever `delOld` says. */
  lemma NullKeyStops(docs: map<DocId, Record>, rows: seq<Record>, row: Record, k: Key, delOld: bool)
    requires k in row && row[k] == Null
    requires !Reconcile(docs, rows, Some(k), delOld).failed
    ensures Reconcile(docs, rows + [row], Some(k), delOld).failed
    ensures Reconcile(docs, rows + [row], Some(k), delOld).docs == Reconcile(docs, rows, Some(k), delOld).docs
    ensures Reconcile(docs, rows + [row], Some(k), delOld).added == Reconcile(docs, rows, Some(k), delOld).added
  {
    assert (rows + [row])[..|rows|] == rows;
  }

  /** Deletes happen only when a key field is given and old documents are to
      be replaced. */
  lemma DeletesOnlyWhenReplacing(docs: map<DocId, Record>, rows: seq<Record>, keyWord: Option<Key>, delOld: bool)
    requires keyWord.None? || !delOld
    ensures Reconcile(docs, rows, keyWord, delOld).docs == docs
  {
    if keyWord.None? {
      ReconcileWithoutKey(docs, rows, delOld);
    } else {
      ReconcileKeep(docs, rows, keyWord.value);
    }
  }

  /** The deletion loop over the ids a search returned. */
  method DeleteAll(es: ElasticObj, rs: map<DocId, Record>)
    requires es.Valid()
    modifies es
    ensures es.Valid()
    ensures es.docs == Without(old(es.docs), rs.Keys)
    ensures es.nextId == old(es.nextId) && es.attempts == old(es.attempts) && es.scrollId == old(es.scrollId)
    ensures es.calls == old(es.calls) && es.batches == old(es.batches) && es.sent == old(es.sent)
  {
    var pending := rs.Keys;
    while pending != {}
      invariant pending <= rs.Keys
      invariant es.Valid()
      invariant es.docs == Without(old(es.docs), rs.Keys - pending)
      invariant es.nextId == old(es.nextId) && es.attempts == old(es.attempts) && es.scrollId == old(es.scrollId)
      invariant es.calls == old(es.calls) && es.batches == old(es.batches) && es.sent == old(es.sent)
      decreases |pending|
    {
      var id :| id in pending;
      WithoutTwice(old(es.docs), rs.Keys - pending, {id});
      assert rs.Keys - (pending - {id}) == (rs.Keys - pending) + {id};
      var _ := es.DeleteById(id);
      pending := pending - {id};
    }
    assert rs.Keys - pending == rs.Keys;
  }

  /** `update_insert` on the client of the target index. */
  method UpdateInsert(es: ElasticObj, rows: seq<Record>, keyWord: Option<Key>, delOld: bool) returns (ok: bool)
    requires es.Valid()
    modifies es
    ensures es.Valid()
    ensures ok == !Reconcile(old(es.docs), rows, keyWord, delOld).failed
    ensures !ok ==> es.docs == Reconcile(old(es.docs), rows, keyWord, delOld).docs
                    && es.nextId == old(es.nextId) && es.attempts == old(es.attempts)
                    && es.calls == old(es.calls) && es.batches == old(es.batches)
    ensures ok ==> es.calls == old(es.calls) + [Reconcile(old(es.docs), rows, keyWord, delOld).added]
    ensures ok ==> es.batches == old(es.batches)
                    + BatchesOf(es.indexName, es.indexType, es.propertyList, Reconcile(old(es.docs), rows, keyWord, delOld).added)
    ensures ok ==> es.State() == ApplyBatches(
                     IndexState(Reconcile(old(es.docs), rows, keyWord, delOld).docs, old(es.nextId), old(es.attempts)),
                     es.bulkServer,
                     BatchesOf(es.indexName, es.indexType, es.propertyList, Reconcile(old(es.docs), rows, keyWord, delOld).added))
    ensures es.scrollId == old(es.scrollId) && es.sent == old(es.sent)
  {
    var addList: seq<Record> := [];
    var i := 0;
    while i < |rows|
      invariant 0 <= i <= |rows|
      invariant es.Valid()
      invariant !Reconcile(old(es.docs), rows[..i], keyWord, delOld).failed
      invariant es.docs == Reconcile(old(es.docs), rows[..i], keyWord, delOld).docs
      invariant addList == Reconcile(old(es.docs), rows[..i], keyWord, delOld).added
      invariant es.nextId == old(es.nextId) && es.attempts == old(es.attempts) && es.scrollId == old(es.scrollId)
      invariant es.calls == old(es.calls) && es.batches == old(es.batches) && es.sent == old(es.sent)
    {
      var row := rows[i];
      ReconcileStep(old(es.docs), rows, i, keyWord, delOld);
      if keyWord.Some? {
        var k := keyWord.value;
        if k !in row {
          assert rows[..i + 1] + rows[i + 1..] == rows;
          ReconcileFailedStays(old(es.docs), rows[..i + 1], rows[i + 1..], keyWord, delOld);
          return false;
        }
        var rs := es.SearchBySingleField(k, row[k]);
        if rs.None? {
          assert rows[..i + 1] + rows[i + 1..] == rows;
          ReconcileFailedStays(old(es.docs), rows[..i + 1], rows[i + 1..], keyWord, delOld);
          return false;
        }
        if |rs.value| > 0 {
          if delOld {
            DeleteAll(es, rs.value);
            addList := addList + [row];
          }
        } else {
          addList := addList + [row];
        }
      } else {
        addList := addList + [row];
      }
      i := i + 1;
    }
    assert rows[..i] == rows;
    es.BulkIndexData(addList);
    ok := true;
  }

  /** Once a row has failed, later rows change nothing. */
  lemma {:induction false} ReconcileFailedStays(docs: map<DocId, Record>, a: seq<Record>, b: seq<Record>,
                                                keyWord: Option<Key>, delOld: bool)
    requires Reconcile(docs, a, keyWord, delOld).failed
    ensures Reconcile(docs, a + b, keyWord, delOld).failed
    ensures Reconcile(docs, a + b, keyWord, delOld).docs == Reconcile(docs, a, keyWord, delOld).docs
  {
    if b != [] {
      var b' := b[..|b| - 1];
      assert (a + b)[..|a + b| - 1] == a + b';
      ReconcileFailedStays(docs, a, b', keyWord, delOld);
    } else {
      assert a + b == a;
    }
  }

  /** `del_by_single_field`: for each row, the documents matching its key
      field are deleted; these are the deletions of `update_insert` when old
      documents are replaced, and no bulk request is made. */
  method DelBySingleField(es: ElasticObj, rows: seq<Record>, k: Key) returns (ok: bool)
    requires es.Valid()
    modifies es
    ensures es.Valid()
    ensures ok == !Reconcile(old(es.docs), rows, Some(k), true).failed
    ensures es.docs == Reconcile(old(es.docs), rows, Some(k), true).docs
    ensures es.nextId == old(es.nextId) && es.attempts == old(es.attempts) && es.scrollId == old(es.scrollId)
    ensures es.calls == old(es.calls) && es.batches == old(es.batches) && es.sent == old(es.sent)
  {
    var i := 0;
    while i < |rows|
      invariant 0 <= i <= |rows|
      invariant es.Valid()
      invariant !Reconcile(old(es.docs), rows[..i], Some(k), true).failed
      invariant es.docs == Reconcile(old(es.docs), rows[..i], Some(k), true).docs
      invariant es.nextId == old(es.nextId) && es.attempts == old(es.attempts) && es.scrollId == old(es.scrollId)
      invariant es.calls == old(es.calls) && es.batches == old(es.batches) && es.sent == old(es.sent)
    {
      var row := rows[i];
      ReconcileStep(old(es.docs), rows, i, Some(k), true);
      if k !in row {
        assert rows[..i + 1] + rows[i + 1..] == rows;
        ReconcileFailedStays(old(es.docs), rows[..i + 1], rows[i + 1..], Some(k), true);
        return false;
      }
      var searched := DeleteMatches(es, k, row[k]);
      if !searched {
        assert rows[..i + 1] + rows[i + 1..] == rows;
        ReconcileFailedStays(old(es.docs), rows[..i + 1], rows[i + 1..], Some(k), true);
        return false;
      }
      i := i + 1;
    }
    assert rows[..i] == rows;
    ok := true;
  }

  /** The search on one key value and the deletion of what it finds;
      `searched` is false when the engine refuses the search, which then
      deletes nothing. */
  method DeleteMatches(es: ElasticObj, k: Key, v: Value) returns (searched: bool)
    requires es.Valid()
    modifies es
    ensures es.Valid()
    ensures searched == Searchable(v)
    ensures es.docs == (var found := Matches(old(es.docs), k, v);
                        if !searched || found == {} then old(es.docs) else Without(old(es.docs), found))
    ensures es.nextId == old(es.nextId) && es.attempts == old(es.attempts) && es.scrollId == old(es.scrollId)
    ensures es.calls == old(es.calls) && es.batches == old(es.batches) && es.sent == old(es.sent)
  {
    var rs := es.SearchBySingleField(k, v);
    searched := rs.Some?;
    if searched && |rs.value| > 0 {
      DeleteAll(es, rs.value);
    }
  }
}
