/**
 * The DEX path: choose the rows of the static DEX pair table that the feeds
 * request, query each through the chain-indexer check, and wrap each answer
 * with the node's identity and the answer's timestamp.
 */
module DexFeeds {
  import opened Wrappers
  import opened JsonValue

  /** One row of the DEX pair table: its `name` and the rest of the row. */
  datatype DexPair = DexPair(name: string, details: Value)

  /** What the chain-indexer check answers for one pair: a message and its timestamp. */
  datatype CheckResult = CheckResult(message: Value, timestamp: Value)

  /** The table rows whose name is among the requested labels, in table order. */
  function Selected(table: seq<DexPair>, requested: seq<string>): seq<DexPair>
  {
    if table == [] then []
    else
      var last := table[|table| - 1];
      Selected(table[..|table| - 1], requested) + (if last.name in requested then [last] else [])
  }

  /** `a` is `b` with some elements left out and the rest in the same order. */
  ghost predicate SubsequenceOf<T>(a: seq<T>, b: seq<T>)
  {
    a == [] ||
    (b != [] &&
     ((a[|a| - 1] == b[|b| - 1] && SubsequenceOf(a[..|a| - 1], b[..|b| - 1])) ||
      SubsequenceOf(a, b[..|b| - 1])))
  }

  /** The loop of `fetch_dex_feeds` that keeps the table rows whose name is requested. */
  method SelectPairs(table: seq<DexPair>, requested: seq<string>) returns (pairs: seq<DexPair>)
    ensures pairs == Selected(table, requested)
  {
    pairs := [];
    for i := 0 to |table|
      invariant pairs == Selected(table[..i], requested)
    {
      var dexPair := table[i];
      assert table[..i + 1][..i] == table[..i];
      if dexPair.name !in requested {
        continue;
      }
      pairs := pairs + [dexPair];
    }
    assert table[..|table|] == table;
  }

  /** A row is selected exactly when it is in the table and its name is requested. */
  lemma {:induction false} SelectedMembership(table: seq<DexPair>, requested: seq<string>, p: DexPair)
    ensures p in Selected(table, requested) <==> p in table && p.name in requested
    decreases |table|
  {
    if table != [] {
      var init := table[..|table| - 1];
      assert table == init + [table[|table| - 1]];
      SelectedMembership(init, requested, p);
    }
  }

  /** The selection keeps table order and takes each table row at most once. */
  lemma {:induction false} SelectedIsSubsequence(table: seq<DexPair>, requested: seq<string>)
    ensures SubsequenceOf(Selected(table, requested), table)
    decreases |table|
  {
    if table != [] {
      var init := table[..|table| - 1];
      SelectedIsSubsequence(init, requested);
      var s := Selected(table, requested);
      if table[|table| - 1].name in requested {
        assert s[..|s| - 1] == Selected(init, requested);
      } else {
        assert s == Selected(init, requested);
      }
    }
  }

  /**
   * Only the set of requested labels matters: neither their order nor repeated
   * requests change the selection.
   */
  lemma {:induction false} SelectedIgnoresRequestOrder(table: seq<DexPair>, r1: seq<string>, r2: seq<string>)
    requires forall x :: x in r1 <==> x in r2
    ensures Selected(table, r1) == Selected(table, r2)
    decreases |table|
  {
    if table != [] {
      SelectedIgnoresRequestOrder(table[..|table| - 1], r1, r2);
    }
  }

  /** The message `retrieve_cnt` builds around one check result. */
  function Wrap(r: CheckResult, nodeId: string): (v: Value)
    ensures Truthy(v)
    ensures Field(v, "message") == Some(r.message)
    ensures Field(v, "node_id") == Some(Str(nodeId))
    ensures Field(v, "validation_timestamp") == Some(r.timestamp)
  {
    Obj(map["message" := r.message, "node_id" := Str(nodeId), "validation_timestamp" := r.timestamp])
  }

  /** One wrapped message per pair, in pair order. */
  function Wrapped(pairs: seq<DexPair>, check: DexPair -> CheckResult, nodeId: string): seq<Value>
  {
    seq(|pairs|, i requires 0 <= i < |pairs| => Wrap(check(pairs[i]), nodeId))
  }

  /**
   * `retrieve_cnt`: query every pair through the check and wrap its answer. The
   * emptiness test is applied to the wrapper, which always has three keys, so
   * no pair is ever skipped.
   */
  method RetrieveCnt(requested: seq<DexPair>, nodeId: string, check: DexPair -> CheckResult)
    returns (res: seq<Value>)
    ensures |res| == |requested|
    ensures forall i :: 0 <= i < |res| ==>
      Field(res[i], "message") == Some(check(requested[i]).message) &&
      Field(res[i], "node_id") == Some(Str(nodeId)) &&
      Field(res[i], "validation_timestamp") == Some(check(requested[i]).timestamp)
    ensures res == Wrapped(requested, check, nodeId)
  {
    res := [];
    for i := 0 to |requested|
      invariant res == Wrapped(requested[..i], check, nodeId)
    {
      var answer := check(requested[i]);
      var message := Wrap(answer, nodeId);
      if !Truthy(message) {
        continue;
      }
      res := res + [message];
    }
    assert requested[..|requested|] == requested;
  }

  /** `fetch_dex_feeds`: select the requested rows, then retrieve and wrap them. */
  method FetchDexFeeds(table: seq<DexPair>, feeds: seq<string>, nodeId: string, check: DexPair -> CheckResult)
    returns (res: seq<Value>, pairs: seq<DexPair>)
    ensures pairs == Selected(table, feeds)
    ensures res == Wrapped(pairs, check, nodeId)
  {
    pairs := SelectPairs(table, feeds);
    res := RetrieveCnt(pairs, nodeId, check);
  }

  /**
   * `collect_dex`: with the DEX path disabled, no pair is queried and the
   * batch is empty; otherwise the batch of `fetch_dex_feeds`.
   */
  method CollectDex(enabled: bool, table: seq<DexPair>, feeds: seq<string>, nodeId: string,
                    check: DexPair -> CheckResult)
    returns (data: seq<Value>, queried: seq<DexPair>)
    ensures !enabled ==> data == [] && queried == []
    ensures enabled ==> queried == Selected(table, feeds) && data == Wrapped(queried, check, nodeId)
  {
    data, queried := [], [];
    if enabled {
      data, queried := FetchDexFeeds(table, feeds, nodeId, check);
    }
  }
}
