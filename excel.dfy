/**
  `EsData.update_insert_from_excel`: the index name comes from the file
  name, the loaded rows get fresh values in the fields listed for that, and
  the rows go through `update_insert`.
 */
module Excel {
  import opened Options
  import opened Cells
  import opened Batching
  import opened Loader
  import opened Elastic
  import opened Upsert

  /** `os.path.basename` on a POSIX path: what follows the last `/`. */
  function BaseName(path: string): (name: string)
    ensures '/' !in name
    ensures |name| <= |path| && path[|path| - |name|..] == name
    ensures |name| < |path| ==> path[|path| - |name| - 1] == '/'
  {
    if path == [] then []
    else if path[|path| - 1] == '/' then []
    else
      var init := path[..|path| - 1];
      var name := BaseName(init);
      assert path == init + [path[|path| - 1]];
      name + [path[|path| - 1]]
  }

  /** The base name of a path is the part after its last `/`. */
  lemma {:induction false} BaseNameOfJoin(dir: string, name: string)
    requires '/' !in name
    ensures BaseName(dir + "/" + name) == name
  {
    if name == [] {
      assert dir + "/" + name == dir + "/";
    } else {
      var init := name[..|name| - 1];
      assert '/' !in init by {
        assert forall c :: c in init ==> c in name;
      }
      BaseNameOfJoin(dir, init);
      var p := dir + "/" + name;
      assert p[..|p| - 1] == dir + "/" + init;
      assert name == init + [name[|name| - 1]];
    }
  }

  /** `s` holds `pat` at position `i`. */
  predicate At(s: string, pat: string, i: nat) {
    i + |pat| <= |s| && s[i..i + |pat|] == pat
  }

  ghost predicate Contains(s: string, pat: string) {
    exists i: nat :: At(s, pat, i)
  }

  /** `str.replace`: every occurrence of `pat`, scanning left to right and
      without overlaps, replaced by `repl`. */
  function ReplaceAll(s: string, pat: string, repl: string): (r: string)
    requires pat != []
    decreases |s|
  {
    if |s| < |pat| then s
    else if s[..|pat|] == pat then repl + ReplaceAll(s[|pat|..], pat, repl)
    else [s[0]] + ReplaceAll(s[1..], pat, repl)
  }

  /** A string without the pattern is left as it is. */
  lemma {:induction false} ReplaceAllAbsent(s: string, pat: string, repl: string)
    requires pat != [] && !Contains(s, pat)
    ensures ReplaceAll(s, pat, repl) == s
    decreases |s|
  {
    if |s| >= |pat| {
      assert !At(s, pat, 0);
      assert s[..|pat|] == s[0..|pat|];
      assert !Contains(s[1..], pat) by {
        forall i: nat | At(s[1..], pat, i)
          ensures At(s, pat, i + 1)
        {
          assert s[1..][i..i + |pat|] == s[i + 1..i + 1 + |pat|];
        }
      }
      ReplaceAllAbsent(s[1..], pat, repl);
      assert s == [s[0]] + s[1..];
    }
  }

  /** Replacing never brings in a character that neither the string nor the
      replacement holds. */
  lemma {:induction false} ReplaceAllChars(s: string, pat: string, repl: string, c: char)
    requires pat != [] && c !in s && c !in repl
    ensures c !in ReplaceAll(s, pat, repl)
    decreases |s|
  {
    if |s| >= |pat| {
      if s[..|pat|] == pat {
        assert forall x :: x in s[|pat|..] ==> x in s;
        ReplaceAllChars(s[|pat|..], pat, repl, c);
      } else {
        assert forall x :: x in s[1..] ==> x in s;
        ReplaceAllChars(s[1..], pat, repl, c);
      }
    }
  }

  const Suffix: string := ".xlsx"

  /** A stem that does not hold `.xlsx` loses exactly the extension. */
  lemma {:induction false} StripSuffix(stem: string)
    requires !Contains(stem, Suffix)
    ensures ReplaceAll(stem + Suffix, Suffix, "") == stem
    decreases |stem|
  {
    var s := stem + Suffix;
    if stem == [] {
      assert s == Suffix && s[|Suffix|..] == [];
    } else {
      assert s[..|Suffix|] != Suffix by {
        if |stem| >= |Suffix| {
          assert s[..|Suffix|] == stem[0..|Suffix|];
          assert !At(stem, Suffix, 0);
        } else {
          assert s[|stem|] == '.' && Suffix[|stem|] != '.';
        }
      }
      assert !Contains(stem[1..], Suffix) by {
        forall i: nat | At(stem[1..], Suffix, i)
          ensures At(stem, Suffix, i + 1)
        {
          assert stem[1..][i..i + |Suffix|] == stem[i + 1..i + 1 + |Suffix|];
        }
      }
      StripSuffix(stem[1..]);
      assert s[1..] == stem[1..] + Suffix;
      assert stem == [stem[0]] + stem[1..];
    }
  }

  /** The index a workbook is loaded into: its file name without `.xlsx`. */
  function IndexNameOf(path: string): (name: string)
    ensures '/' !in name
  {
    ReplaceAllChars(BaseName(path), Suffix, "", '/');
    ReplaceAll(BaseName(path), Suffix, "")
  }

  /** The index name holds no `/`, and a workbook `<dir>/<stem>.xlsx` whose
      stem holds no `/` and no `.xlsx` goes to the index `<stem>`. */
  lemma IndexNameOfSpec(path: string, dir: string, stem: string)
    ensures '/' !in IndexNameOf(path)
    ensures '/' !in stem && !Contains(stem, Suffix) ==> IndexNameOf(dir + "/" + stem + Suffix) == stem
  {
    ReplaceAllChars(BaseName(path), Suffix, "", '/');
    if '/' !in stem && !Contains(stem, Suffix) {
      assert '/' !in stem + Suffix;
      assert dir + "/" + stem + Suffix == dir + "/" + (stem + Suffix);
      BaseNameOfJoin(dir, stem + Suffix);
      StripSuffix(stem);
    }
  }

  /** The fields `keys` of a record set, in order, to `vals` (a field listed
      twice ends with its later value). */
  function Assign(row: Record, keys: seq<Key>, vals: seq<Value>): Record
    requires |vals| == |keys|
  {
    if keys == [] then row
    else Assign(row, keys[..|keys| - 1], vals[..|vals| - 1])[keys[|keys| - 1] := vals[|vals| - 1]]
  }

  /** After the assignments the record holds its own fields and the listed
      ones. */
  lemma {:induction false} AssignKeys(row: Record, keys: seq<Key>, vals: seq<Value>)
    requires |vals| == |keys|
    ensures Assign(row, keys, vals).Keys == row.Keys + (set k | k in keys)
  {
    if keys != [] {
      var n := |keys|;
      AssignKeys(row, keys[..n - 1], vals[..n - 1]);
      assert keys == keys[..n - 1] + [keys[n - 1]];
    }
  }

  /** A field that is not listed keeps its value. */
  lemma {:induction false} AssignOthers(row: Record, keys: seq<Key>, vals: seq<Value>, k: Key)
    requires |vals| == |keys| && k in row && k !in keys
    ensures k in Assign(row, keys, vals) && Assign(row, keys, vals)[k] == row[k]
  {
    if keys != [] {
      var n := |keys|;
      assert k !in keys[..n - 1] && k != keys[n - 1];
      AssignOthers(row, keys[..n - 1], vals[..n - 1], k);
    }
  }

  /** A listed field holds the value of its last listing. */
  lemma {:induction false} AssignValue(row: Record, keys: seq<Key>, vals: seq<Value>, j: nat)
    requires |vals| == |keys| && j < |keys|
    requires forall j' :: j < j' < |keys| ==> keys[j'] != keys[j]
    ensures keys[j] in Assign(row, keys, vals) && Assign(row, keys, vals)[keys[j]] == vals[j]
  {
    var n := |keys|;
    if j < n - 1 {
      AssignValue(row, keys[..n - 1], vals[..n - 1], j);
    }
  }

  /** The values `create_uid` gives the fields of row `i`, one per listed
      field, as a text; `uid(i, j)` stands for the `j`-th call on that row. */
  function UidValues(uid: (nat, nat) -> string, i: nat, n: nat): (vs: seq<Value>)
    ensures |vs| == n && forall j :: 0 <= j < n ==> vs[j] == Text(uid(i, j))
  {
    seq(n, j requires 0 <= j => Text(uid(i, j)))
  }

  /** The values `create_num_uid` gives the fields of row `i`, as numbers. */
  function NumValues(num: (nat, nat) -> int, i: nat, n: nat): (vs: seq<Value>)
    ensures |vs| == n && forall j :: 0 <= j < n ==> vs[j] == Number(num(i, j))
  {
    seq(n, j requires 0 <= j => Number(num(i, j)))
  }

  /** Row `i` once its text fields and then its number fields are set. */
  function Stamp(row: Record, i: nat, strKeys: seq<Key>, intKeys: seq<Key>,
                 uid: (nat, nat) -> string, num: (nat, nat) -> int): (stamped: Record)
    ensures stamped.Keys == row.Keys + (set k | k in strKeys) + (set k | k in intKeys)
  {
    AssignKeys(row, strKeys, UidValues(uid, i, |strKeys|));
    AssignKeys(Assign(row, strKeys, UidValues(uid, i, |strKeys|)), intKeys, NumValues(num, i, |intKeys|));
    Assign(Assign(row, strKeys, UidValues(uid, i, |strKeys|)), intKeys, NumValues(num, i, |intKeys|))
  }

  /** The stamped row has its own fields and every listed one; a field listed
      among the numbers ends as a number, one listed only among the texts
      ends as a text, and the other fields keep their values. */
  lemma StampSpec(row: Record, i: nat, strKeys: seq<Key>, intKeys: seq<Key>,
                  uid: (nat, nat) -> string, num: (nat, nat) -> int)
    ensures Stamp(row, i, strKeys, intKeys, uid, num).Keys
            == row.Keys + (set k | k in strKeys) + (set k | k in intKeys)
    ensures forall k :: k in row && k !in strKeys && k !in intKeys ==> Stamp(row, i, strKeys, intKeys, uid, num)[k] == row[k]
    ensures forall j :: 0 <= j < |intKeys| && (forall j' :: j < j' < |intKeys| ==> intKeys[j'] != intKeys[j])
              ==> Stamp(row, i, strKeys, intKeys, uid, num)[intKeys[j]] == Number(num(i, j))
    ensures forall j :: 0 <= j < |strKeys| && strKeys[j] !in intKeys
                        && (forall j' :: j < j' < |strKeys| ==> strKeys[j'] != strKeys[j])
              ==> Stamp(row, i, strKeys, intKeys, uid, num)[strKeys[j]] == Text(uid(i, j))
  {
    var texts, nums := UidValues(uid, i, |strKeys|), NumValues(num, i, |intKeys|);
    var mid := Assign(row, strKeys, texts);
    AssignKeys(row, strKeys, texts);
    AssignKeys(mid, intKeys, nums);
    forall k | k in row && k !in strKeys && k !in intKeys
      ensures Stamp(row, i, strKeys, intKeys, uid, num)[k] == row[k]
    {
      AssignOthers(row, strKeys, texts, k);
      AssignOthers(mid, intKeys, nums, k);
    }
    forall j | 0 <= j < |intKeys| && (forall j' :: j < j' < |intKeys| ==> intKeys[j'] != intKeys[j])
      ensures Stamp(row, i, strKeys, intKeys, uid, num)[intKeys[j]] == Number(num(i, j))
    {
      AssignValue(mid, intKeys, nums, j);
    }
    forall j | 0 <= j < |strKeys| && strKeys[j] !in intKeys
               && (forall j' :: j < j' < |strKeys| ==> strKeys[j'] != strKeys[j])
      ensures Stamp(row, i, strKeys, intKeys, uid, num)[strKeys[j]] == Text(uid(i, j))
    {
      AssignValue(row, strKeys, texts, j);
      AssignOthers(mid, intKeys, nums, strKeys[j]);
    }
  }

  /** The loaded rows, each stamped with the values of its own position. */
  function StampAll(rows: seq<Record>, strKeys: seq<Key>, intKeys: seq<Key>,
                    uid: (nat, nat) -> string, num: (nat, nat) -> int): (out: seq<Record>)
    ensures |out| == |rows|
    ensures forall i :: 0 <= i < |rows| ==> out[i] == Stamp(rows[i], i, strKeys, intKeys, uid, num)
  {
    seq(|rows|, i requires 0 <= i < |rows| => Stamp(rows[i], i, strKeys, intKeys, uid, num))
  }

  /** Every stamped row has its own fields and every listed one, keeps the
      value of each field that is not listed, and holds in each field listed
      among the numbers the number of its last listing for its own position. */
  lemma StampAllSpec(rows: seq<Record>, strKeys: seq<Key>, intKeys: seq<Key>,
                     uid: (nat, nat) -> string, num: (nat, nat) -> int)
    ensures forall i :: 0 <= i < |rows| ==>
              StampAll(rows, strKeys, intKeys, uid, num)[i].Keys
              == rows[i].Keys + (set k | k in strKeys) + (set k | k in intKeys)
    ensures forall i, k :: 0 <= i < |rows| && k in rows[i] && k !in strKeys && k !in intKeys ==>
              StampAll(rows, strKeys, intKeys, uid, num)[i][k] == rows[i][k]
    ensures forall i, j :: 0 <= i < |rows| && 0 <= j < |intKeys|
                           && (forall j' :: j < j' < |intKeys| ==> intKeys[j'] != intKeys[j]) ==>
              StampAll(rows, strKeys, intKeys, uid, num)[i][intKeys[j]] == Number(num(i, j))
  {
    var out := StampAll(rows, strKeys, intKeys, uid, num);
    forall i | 0 <= i < |rows|
      ensures out[i].Keys == rows[i].Keys + (set k | k in strKeys) + (set k | k in intKeys)
      ensures forall k :: k in rows[i] && k !in strKeys && k !in intKeys ==> out[i][k] == rows[i][k]
      ensures forall j :: 0 <= j < |intKeys| && (forall j' :: j < j' < |intKeys| ==> intKeys[j'] != intKeys[j]) ==>
                out[i][intKeys[j]] == Number(num(i, j))
    {
      StampSpec(rows[i], i, strKeys, intKeys, uid, num);
    }
  }

  /** Without fields to overwrite the rows are left as loaded. */
  lemma StampAllNothing(rows: seq<Record>, uid: (nat, nat) -> string, num: (nat, nat) -> int)
    ensures StampAll(rows, [], [], uid, num) == rows
  {
  }

  /** The two inner loops of `update_insert_from_excel` on row `i`. */
  method StampRow(row: Record, i: nat, strKeys: seq<Key>, intKeys: seq<Key>,
                  uid: (nat, nat) -> string, num: (nat, nat) -> int) returns (out: Record)
    ensures out == Stamp(row, i, strKeys, intKeys, uid, num)
  {
    out := row;
    var j := 0;
    while j < |strKeys|
      invariant 0 <= j <= |strKeys|
      invariant out == Assign(row, strKeys[..j], UidValues(uid, i, j))
    {
      assert strKeys[..j + 1][..j] == strKeys[..j];
      assert UidValues(uid, i, j + 1)[..j] == UidValues(uid, i, j);
      out := out[strKeys[j] := Text(uid(i, j))];
      j := j + 1;
    }
    assert strKeys[..j] == strKeys;
    var mid := out;
    j := 0;
    while j < |intKeys|
      invariant 0 <= j <= |intKeys|
      invariant out == Assign(mid, intKeys[..j], NumValues(num, i, j))
    {
      assert intKeys[..j + 1][..j] == intKeys[..j];
      assert NumValues(num, i, j + 1)[..j] == NumValues(num, i, j);
      out := out[intKeys[j] := Number(num(i, j))];
      j := j + 1;
    }
    assert intKeys[..j] == intKeys;
  }

  /** The outer loop: every loaded row stamped in place. */
  method OverwriteFields(rows: seq<Record>, strKeys: seq<Key>, intKeys: seq<Key>,
                         uid: (nat, nat) -> string, num: (nat, nat) -> int) returns (out: seq<Record>)
    ensures out == StampAll(rows, strKeys, intKeys, uid, num)
  {
    out := rows;
    var i := 0;
    while i < |rows|
      invariant 0 <= i <= |rows| && |out| == |rows|
      invariant forall r :: 0 <= r < i ==> out[r] == Stamp(rows[r], r, strKeys, intKeys, uid, num)
      invariant forall r :: i <= r < |rows| ==> out[r] == rows[r]
    {
      var stamped := StampRow(out[i], i, strKeys, intKeys, uid, num);
      out := out[i := stamped];
      i := i + 1;
    }
  }

  /** `update_insert_from_excel`: the workbook at `path` (whose active sheet
      is `sheet`) goes to the index named after the file, through the client
      `es` of that index; `uid` and `num` stand for `create_uid` and
      `create_num_uid`. */
  method UpdateInsertFromExcel(es: ElasticObj, path: string, sheet: Sheet, keyWord: Option<Key>, delOld: bool,
                               strKeys: seq<Key>, intKeys: seq<Key>,
                               uid: (nat, nat) -> string, num: (nat, nat) -> int) returns (ok: bool)
    requires Rectangular(sheet)
    requires es.Valid() && es.indexName == IndexNameOf(path)
    modifies es
    ensures es.Valid()
    ensures ok == !Reconcile(old(es.docs), StampAll(Loaded(sheet), strKeys, intKeys, uid, num), keyWord, delOld).failed
    ensures ok ==> es.calls == old(es.calls)
                              + [Reconcile(old(es.docs), StampAll(Loaded(sheet), strKeys, intKeys, uid, num), keyWord, delOld).added]
    ensures ok ==> es.batches == old(es.batches)
                    + BatchesOf(es.indexName, es.indexType, es.propertyList,
                                Reconcile(old(es.docs), StampAll(Loaded(sheet), strKeys, intKeys, uid, num), keyWord, delOld).added)
    ensures !ok ==> es.docs == Reconcile(old(es.docs), StampAll(Loaded(sheet), strKeys, intKeys, uid, num), keyWord, delOld).docs
                    && es.nextId == old(es.nextId) && es.attempts == old(es.attempts)
                    && es.calls == old(es.calls) && es.batches == old(es.batches)
    ensures ok ==> es.State() == ApplyBatches(
                     IndexState(Reconcile(old(es.docs), StampAll(Loaded(sheet), strKeys, intKeys, uid, num), keyWord, delOld).docs,
                                old(es.nextId), old(es.attempts)),
                     es.bulkServer,
                     BatchesOf(es.indexName, es.indexType, es.propertyList,
                               Reconcile(old(es.docs), StampAll(Loaded(sheet), strKeys, intKeys, uid, num), keyWord, delOld).added))
    ensures es.scrollId == old(es.scrollId) && es.sent == old(es.sent)
  {
    var all := Load(sheet);
    all := OverwriteFields(all, strKeys, intKeys, uid, num);
    ok := UpdateInsert(es, all, keyWord, delOld);
  }
}
