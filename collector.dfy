/**
 * One run of the collector node: wait a random stagger, then `fetch_and_send`
 * — split the feeds, gather the DEX batch, open the validator connection and
 * send the CEX results followed by the DEX batch.
 *
 * `Expected` states the whole run for a given visiting order of the CEX labels;
 * `FetchAndSend` is the run itself, proved equal to it, and the lemmas below
 * state what a run promises about the messages the validator receives.
 */
module Collector {
  import opened JsonValue
  import opened Feeds
  import opened DexFeeds
  import opened CexFeeds
  import opened Transport
  import opened Submission

  /** How opening the validator connection went. */
  datatype ConnectOutcome =
    | Accepted       // the websocket handshake succeeded
    | InvalidStatus  // `InvalidStatusCode`: caught and logged
    | Unreachable    // any other connection error: it escapes the run

  /**
   * Everything the run takes from outside: the configured validator base, whether
   * the DEX modules are installed, the price-fetch process (per label), the DEX
   * pair table and `check_tokens_pair`, the connection attempt, the outcome of
   * the wait that follows the `k`-th send, and `sign_with_key` applied to the
   * JSON text.
   */
  datatype Env = Env(
    validatorUri: string,
    cntEnabled: bool,
    gofer: string -> GoferOutcome,
    dexTable: seq<DexPair>,
    check: DexPair -> CheckResult,
    connect: ConnectOutcome,
    reply: nat -> Outcome,
    sign: Value -> string)

  /** How `fetch_and_send` ends. */
  datatype RunEnd =
    | Finished           // the items ran out (or the DEX path is disabled)
    | ConnectionDropped  // `ConnectionClosedError`, caught and logged
    | StatusRefused      // `InvalidStatusCode` on connecting, caught and logged
    | Crashed            // an exception escaped to the top-level handler

  /**
   * What one run did: the DEX pairs queried and the batch built from them, the
   * endpoint and whether TLS was used, the order the CEX labels were visited in
   * and how many were fetched, every payload handed to the validator, and the end.
   */
  datatype Report = Report(
    queried: seq<DexPair>,
    dex: seq<Value>,
    endpoint: string,
    tls: bool,
    order: seq<string>,
    fetched: nat,
    sent: seq<string>,
    end: RunEnd)

  function EndOf(e: LoopEnd): RunEnd
  {
    match e
    case Exhausted => Finished
    case ConnectionLost => ConnectionDropped
    case Escaped => Crashed
  }

  /** The DEX pairs queried for the DEX labels: none when the DEX path is disabled. */
  function Queried(feeds: seq<FeedSpec>, env: Env): seq<DexPair>
  {
    if env.cntEnabled then Selected(env.dexTable, LabelsOf(feeds, "dex")) else []
  }

  /** Every item the send loop of a connected run visits. */
  function Items(feeds: seq<FeedSpec>, nodeId: string, env: Env, order: seq<string>): seq<Step>
  {
    AllSteps(order, env.gofer, Wrapped(Queried(feeds, env), env.check, nodeId), env.cntEnabled)
  }

  /**
   * The run of `fetch_and_send` when the CEX labels are visited in `order`: the
   * DEX batch is gathered before connecting; without a connection nothing is
   * fetched from the price process and nothing is sent.
   */
  function Expected(feeds: seq<FeedSpec>, nodeId: string, env: Env, order: seq<string>): Report
  {
    var queried := Queried(feeds, env);
    var dex := Wrapped(queried, env.check, nodeId);
    var endpoint := Endpoint(env.validatorUri, nodeId);
    match env.connect
    case InvalidStatus => Report(queried, dex, endpoint, UsesTls(endpoint), [], 0, [], StatusRefused)
    case Unreachable => Report(queried, dex, endpoint, UsesTls(endpoint), [], 0, [], Crashed)
    case Accepted =>
      var r := Run(Items(feeds, nodeId, env, order), env.reply, 0);
      Report(queried, dex, endpoint, UsesTls(endpoint), order,
             if r.consumed < |order| then r.consumed else |order|,
             Sent(Items(feeds, nodeId, env, order), env.sign, env.reply, 0), EndOf(r.end))
  }

  /**
   * `fetch_and_send`: split the feeds, gather the DEX batch, build the endpoint
   * and decide on TLS, connect, and on an accepted connection send the CEX
   * results in a random order of their labels, then the DEX batch. The
   * connection, returned when one was opened, is closed whichever way the
   * loop ended, as leaving the `async with` block closes it.
   */
  method FetchAndSend(feeds: seq<FeedSpec>, nodeId: string, env: Env)
    returns (rep: Report, socket: ValidatorSocket?)
    ensures env.connect == Accepted ==> multiset(rep.order) == multiset(LabelsOf(feeds, "cex"))
    ensures env.connect != Accepted ==> rep.order == []
    ensures rep == Expected(feeds, nodeId, env, rep.order)
    ensures socket != null <==> env.connect == Accepted
    ensures socket != null ==> !socket.open && socket.sent == rep.sent && socket.reply == env.reply
  {
    var cex, dexLabels := PartitionFeeds(feeds);
    var dex, queried := CollectDex(env.cntEnabled, env.dexTable, dexLabels, nodeId, env.check);
    var endpoint := Endpoint(env.validatorUri, nodeId);
    var tls := UsesTls(endpoint);
    match env.connect
    case InvalidStatus =>
      rep, socket := Report(queried, dex, endpoint, tls, [], 0, [], StatusRefused), null;
    case Unreachable =>
      rep, socket := Report(queried, dex, endpoint, tls, [], 0, [], Crashed), null;
    case Accepted =>
      socket := new ValidatorSocket(env.reply);
      var order := Sample(cex);
      var end, fetched := SubmitAll(socket, order, env.gofer, dex, env.cntEnabled, env.sign);
      socket.Close();
      assert [] + socket.sent == socket.sent;
      rep := Report(queried, dex, endpoint, tls, order, fetched, socket.sent, EndOf(end));
  }

  /** `random.randint(lo, hi)`: some integer between the bounds, both included. */
  method RandInt(lo: int, hi: int) returns (r: int)
    requires lo <= hi
    ensures lo <= r <= hi
  {
    r :| lo <= r <= hi;
  }

  /** `collector_main`: draw a stagger of 1 to 15 time units, then run `fetch_and_send`. */
  method CollectorMain(feeds: seq<FeedSpec>, nodeId: string, env: Env)
    returns (stagger: int, rep: Report, socket: ValidatorSocket?)
    ensures 1 <= stagger <= 15
    ensures env.connect == Accepted ==> multiset(rep.order) == multiset(LabelsOf(feeds, "cex"))
    ensures env.connect != Accepted ==> rep.order == []
    ensures rep == Expected(feeds, nodeId, env, rep.order)
    ensures socket != null <==> env.connect == Accepted
    ensures socket != null ==> !socket.open && socket.sent == rep.sent && socket.reply == env.reply
  {
    stagger := RandInt(1, 15);
    rep, socket := FetchAndSend(feeds, nodeId, env);
  }

  /** The DEX items of a batch built from the queried pairs. */
  function DexItems(feeds: seq<FeedSpec>, nodeId: string, env: Env): seq<Step>
  {
    DexSteps(Wrapped(Queried(feeds, env), env.check, nodeId))
  }

  /** The items of a connected run are the CEX items, then the DEX items. */
  lemma ItemsSplit(feeds: seq<FeedSpec>, nodeId: string, env: Env, order: seq<string>)
    ensures Items(feeds, nodeId, env, order) == CexSteps(order, env.gofer) + DexItems(feeds, nodeId, env)
  {
    if !env.cntEnabled {
      assert Wrapped(Queried(feeds, env), env.check, nodeId) == [];
      assert DexItems(feeds, nodeId, env) == [];
    }
  }

  /** A connected run sends what the send loop over its items sends, and ends as that loop does. */
  lemma ConnectedRun(feeds: seq<FeedSpec>, nodeId: string, env: Env, order: seq<string>)
    requires env.connect == Accepted
    ensures var rep := Expected(feeds, nodeId, env, order);
      var all := Items(feeds, nodeId, env, order);
      var r := Run(all, env.reply, 0);
      && rep.sent == Sent(all, env.sign, env.reply, 0)
      && rep.end == EndOf(r.end)
      && rep.fetched == (if r.consumed < |order| then r.consumed else |order|)
  {
  }

  /**
   * The validator receives the CEX results before any DEX message, each group in
   * its own order: what a run sends begins the signed CEX values, followed by
   * the signed DEX messages.
   */
  lemma CexBeforeDex(feeds: seq<FeedSpec>, nodeId: string, env: Env, order: seq<string>)
    ensures var cs := CexSteps(order, env.gofer);
      var ds := DexItems(feeds, nodeId, env);
      Expected(feeds, nodeId, env, order).sent <= Signed(cs, |cs|, env.sign) + Signed(ds, |ds|, env.sign)
  {
    if env.connect == Accepted {
      ItemsSplit(feeds, nodeId, env, order);
      SentInItemOrder(CexSteps(order, env.gofer), DexItems(feeds, nodeId, env), env.sign, env.reply, 0);
    }
  }

  /**
   * Without the DEX modules no DEX pair is queried and only CEX results are
   * sent, in the order the labels were visited.
   */
  lemma CntDisabledSendsOnlyCex(feeds: seq<FeedSpec>, nodeId: string, env: Env, order: seq<string>)
    requires !env.cntEnabled
    ensures var rep := Expected(feeds, nodeId, env, order);
      var cs := CexSteps(order, env.gofer);
      rep.queried == [] && rep.dex == [] && rep.sent <= Signed(cs, |cs|, env.sign)
  {
    CexBeforeDex(feeds, nodeId, env, order);
    var ds := DexItems(feeds, nodeId, env);
    assert ds == [];
    var cs := CexSteps(order, env.gofer);
    assert Signed(cs, |cs|, env.sign) + Signed(ds, |ds|, env.sign) == Signed(cs, |cs|, env.sign);
  }

  /**
   * A lost connection or an exception during the CEX loop ends the run there:
   * no DEX message is sent, and the run ends as the CEX loop did.
   */
  lemma CexStopSkipsDex(feeds: seq<FeedSpec>, nodeId: string, env: Env, order: seq<string>)
    requires env.connect == Accepted
    requires Run(CexSteps(order, env.gofer), env.reply, 0).end != Exhausted
    ensures var rep := Expected(feeds, nodeId, env, order);
      var r := Run(CexSteps(order, env.gofer), env.reply, 0);
      && rep.sent == Sent(CexSteps(order, env.gofer), env.sign, env.reply, 0)
      && rep.end == EndOf(r.end) && rep.fetched == r.consumed
  {
    var cs := CexSteps(order, env.gofer);
    ItemsSplit(feeds, nodeId, env, order);
    StopsWithin(cs, DexItems(feeds, nodeId, env), env.sign, env.reply, 0);
    DriveFollowsItems(cs, |cs|, env.reply, 0);
  }

  /**
   * Rejections and timeouts never cut a run short: on an accepted connection
   * where no item raises and every wait after a message the run has to send ends in
   * a reply or a timeout, the run finishes, fetches every CEX label and sends
   * every signed CEX value, then every signed DEX message.
   */
  lemma AnsweredRunSendsEverything(feeds: seq<FeedSpec>, nodeId: string, env: Env, order: seq<string>)
    requires env.connect == Accepted
    requires Clean(Items(feeds, nodeId, env, order))
    requires forall j: nat :: j < Sends(Items(feeds, nodeId, env, order), |Items(feeds, nodeId, env, order)|) ==>
      GoesOn(env.reply, 0, j)
    ensures var rep := Expected(feeds, nodeId, env, order);
      var cs := CexSteps(order, env.gofer);
      var ds := DexItems(feeds, nodeId, env);
      && rep.end == Finished && rep.fetched == |order|
      && rep.sent == Signed(cs, |cs|, env.sign) + Signed(ds, |ds|, env.sign)
  {
    ConnectedRun(feeds, nodeId, env, order);
    ItemsSplit(feeds, nodeId, env, order);
    SendsEverything(CexSteps(order, env.gofer), DexItems(feeds, nodeId, env), env.sign, env.reply, 0);
  }

  /**
   * A run that finishes met no item that raises, got a reply or a timeout for
   * every wait after a message, and sent every value there was to send.
   */
  lemma FinishedRun(feeds: seq<FeedSpec>, nodeId: string, env: Env, order: seq<string>)
    requires Expected(feeds, nodeId, env, order).end == Finished
    ensures env.connect == Accepted
    ensures var all := Items(feeds, nodeId, env, order);
      && Clean(all)
      && Expected(feeds, nodeId, env, order).sent == Signed(all, |all|, env.sign)
      && forall j: nat :: j < Sends(all, |all|) ==> GoesOn(env.reply, 0, j)
  {
    var all := Items(feeds, nodeId, env, order);
    DriveExhaustedClean(all, |all|, env.reply, 0);
    DriveFollowsItems(all, |all|, env.reply, 0);
    DriveAnswered(all, |all|, env.reply, 0);
    SentAll(all, env.sign, env.reply, 0);
  }

  /**
   * A run ends on a dropped connection only when the last message it sent found
   * the connection closed; every wait before that one ended in a reply or a timeout.
   */
  lemma DroppedOnLastMessage(feeds: seq<FeedSpec>, nodeId: string, env: Env, order: seq<string>)
    requires Expected(feeds, nodeId, env, order).end == ConnectionDropped
    ensures var rep := Expected(feeds, nodeId, env, order);
      && |rep.sent| >= 1 && env.reply(|rep.sent| - 1) == ConnectionClosed
      && forall j: nat :: j + 1 < |rep.sent| ==> GoesOn(env.reply, 0, j)
  {
    ConnectedRun(feeds, nodeId, env, order);
    var all := Items(feeds, nodeId, env, order);
    DriveLostOnLast(all, |all|, env.reply, 0);
    DriveStopsOnLast(all, |all|, env.reply, 0);
  }

  /**
   * The wrapper `retrieve_cnt` builds is never skipped: it is sent exactly when
   * the check's message carries the log fields, and raises in `send_to_ws`
   * otherwise — in particular when the check found no message at all.
   */
  lemma DexItemOf(r: CheckResult, nodeId: string)
    ensures ValueStep(Wrap(r, nodeId)) ==
      if MessageHasLogFields(r.message) then Send(Wrap(r, nodeId)) else Raise
    ensures r.message == Null ==> ValueStep(Wrap(r, nodeId)) == Raise
  {
  }

  /**
   * A run with the DEX path enabled finishes only when the check's message of
   * every queried DEX pair carries the log fields.
   */
  lemma FinishedRunHadDexFields(feeds: seq<FeedSpec>, nodeId: string, env: Env, order: seq<string>)
    requires env.cntEnabled
    requires Expected(feeds, nodeId, env, order).end == Finished
    ensures var queried := Queried(feeds, env);
      forall i :: 0 <= i < |queried| ==> MessageHasLogFields(env.check(queried[i]).message)
  {
    FinishedRun(feeds, nodeId, env, order);
    ItemsSplit(feeds, nodeId, env, order);
    var ds := DexItems(feeds, nodeId, env);
    CleanSuffix(CexSteps(order, env.gofer), ds);
    var queried := Queried(feeds, env);
    forall i | 0 <= i < |queried|
      ensures MessageHasLogFields(env.check(queried[i]).message)
    {
      assert ds[i] == ValueStep(Wrap(env.check(queried[i]), nodeId));
      DexItemOf(env.check(queried[i]), nodeId);
    }
  }
}
