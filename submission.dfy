/**
 * The submission loop of `fetch_and_send`: drain the CEX generator, then (with
 * the DEX path enabled) the DEX batch, sending each non-empty result over one
 * validator connection until the items run out or the connection fails.
 *
 * `Drive` states what the loop sends for a given sequence of items; `SubmitAll`
 * is the loop itself, appending to the socket's sent log, proved equal to it.
 */
module Submission {
  import opened JsonValue
  import opened CexFeeds
  import opened Transport

  /**
   * One item the loop visits: nothing to send (a falsy value), a value to send,
   * or an exception before anything is sent (the fetch raised, or the value
   * lacks a log field that `send_to_ws` indexes before sending).
   */
  datatype Step = Skip | Send(data: Value) | Raise

  /** How the loop ended: items exhausted, `ConnectionClosedError`, or another exception escaping. */
  datatype LoopEnd = Exhausted | ConnectionLost | Escaped

  /**
   * The number of messages handed to the socket, the number of items visited,
   * and how the loop ended. The messages themselves are the first `sentCount`
   * signed values of the items (`Signed`), as `DriveFollowsItems` states.
   */
  datatype LoopResult = LoopResult(sentCount: nat, consumed: nat, end: LoopEnd)

  /** The item for a value the loop got: skipped when falsy, raising when a log field is missing. */
  function ValueStep(v: Value): (s: Step)
    ensures s.Skip? <==> !Truthy(v)
    ensures s.Send? <==> Truthy(v) && HasLogFields(v)
    ensures s.Send? ==> s.data == v
  {
    if !Truthy(v) then Skip else if HasLogFields(v) then Send(v) else Raise
  }

  /** The item for one CEX label: the fetch raised, or the item for the value it gave. */
  function CexStep(feed: string, g: GoferOutcome): (s: Step)
    ensures g.Decoded? && !g.stdout.Obj? ==> s.Raise?
    ensures s.Send? <==>
      g.Decoded? && g.stdout.Obj? && feed in g.stdout.fields &&
      Truthy(g.stdout.fields[feed]) && HasLogFields(g.stdout.fields[feed])
    ensures s.Send? ==> s.data == g.stdout.fields[feed]
  {
    match FetchCexData(feed, g)
    case Raised => Raise
    case Data(v) => ValueStep(v)
  }

  /** The CEX generator: one item per label, in the order the labels are visited. */
  function CexSteps(order: seq<string>, gofer: string -> GoferOutcome): (r: seq<Step>)
    ensures |r| == |order|
    ensures forall i :: 0 <= i < |order| ==> r[i] == CexStep(order[i], gofer(order[i]))
  {
    if order == [] then []
    else
      var last := order[|order| - 1];
      CexSteps(order[..|order| - 1], gofer) + [CexStep(last, gofer(last))]
  }

  /** The DEX loop: one item per entry of the batch, in batch order. */
  function DexSteps(data: seq<Value>): (r: seq<Step>)
    ensures |r| == |data|
    ensures forall i :: 0 <= i < |data| ==> r[i] == ValueStep(data[i])
  {
    if data == [] then [] else DexSteps(data[..|data| - 1]) + [ValueStep(data[|data| - 1])]
  }

  /** Every item the loop visits: the CEX items, then the DEX items only when enabled. */
  function AllSteps(order: seq<string>, gofer: string -> GoferOutcome, dexData: seq<Value>, cntEnabled: bool): seq<Step>
  {
    CexSteps(order, gofer) + (if cntEnabled then DexSteps(dexData) else [])
  }

  /**
   * The item `s` is skipped, or sent and followed by a wait that lets the loop go
   * on: a reply (accepted or rejected) or a timeout, as `Classify` states.
   */
  predicate Proceeds(s: Step, reply: nat -> Outcome, k: nat)
  {
    s.Skip? || (s.Send? && (reply(k).Reply? || reply(k).Timeout?))
  }

  /**
   * The loop's handling of one item as the `k`-th message on the connection:
   * whether it sends, and whether the loop goes on, loses the connection after
   * sending, or lets an exception escape the run.
   */
  function Head(s: Step, reply: nat -> Outcome, k: nat): LoopResult
  {
    var end :=
      if Proceeds(s, reply, k) then Exhausted
      else if s.Send? && reply(k).ConnectionClosed? then ConnectionLost
      else Escaped;
    LoopResult(if s.Send? then 1 else 0, 1, end)
  }

  /**
   * The handling of one item visits it and sends at most its value; the loop
   * goes on exactly when the item proceeds, and loses the connection exactly
   * when the value was sent and the connection was found closed.
   */
  lemma HeadFacts(s: Step, reply: nat -> Outcome, k: nat)
    ensures var r := Head(s, reply, k);
      && r.consumed == 1 && (r.sentCount == 1 <==> s.Send?) && r.sentCount <= 1
      && (r.end == Exhausted <==> Proceeds(s, reply, k))
      && (r.end == ConnectionLost <==> s.Send? && reply(k) == ConnectionClosed)
  {
  }

  /** Running `a` and then, if `a` ran out, `b`. */
  function Then(a: LoopResult, b: LoopResult): LoopResult
  {
    if a.end == Exhausted then LoopResult(a.sentCount + b.sentCount, a.consumed + b.consumed, b.end) else a
  }

  /**
   * What the loop does with the first `n` items when `k` messages were sent on
   * the connection before: the loop over the first `n - 1` items, then, if it
   * ran out, the handling of item `n - 1` as the next message on the connection.
   */
  function Drive(steps: seq<Step>, n: nat, reply: nat -> Outcome, k: nat): LoopResult
    requires n <= |steps|
  {
    if n == 0 then LoopResult(0, 0, Exhausted)
    else
      var p := Drive(steps, n - 1, reply, k);
      Then(p, Head(steps[n - 1], reply, k + p.sentCount))
  }

  /** What the loop does with all of `steps`. */
  function Run(steps: seq<Step>, reply: nat -> Outcome, k: nat): LoopResult
  {
    Drive(steps, |steps|, reply, k)
  }

  /** The number of values to send among the first `n` items. */
  function Sends(steps: seq<Step>, n: nat): nat
    requires n <= |steps|
  {
    if n == 0 then 0 else Sends(steps, n - 1) + (if steps[n - 1].Send? then 1 else 0)
  }

  /** The signed payload of every value to send among the first `n` items, in item order. */
  function Signed(steps: seq<Step>, n: nat, sign: Value -> string): (r: seq<string>)
    requires n <= |steps|
    ensures |r| == Sends(steps, n)
  {
    if n == 0 then []
    else Signed(steps, n - 1, sign) + (if steps[n - 1].Send? then [sign(steps[n - 1].data)] else [])
  }

  /** The payloads the loop over `steps` hands to the socket, in order. */
  function Sent(steps: seq<Step>, sign: Value -> string, reply: nat -> Outcome, k: nat): (r: seq<string>)
    ensures |r| == Run(steps, reply, k).sentCount
  {
    DriveFollowsItems(steps, |steps|, reply, k);
    Signed(steps, |steps|, sign)[..Run(steps, reply, k).sentCount]
  }

  /**
   * The loop follows the items: it sends at most the values there are and
   * visits each item at most once; when the items run out, every value was
   * sent and every item visited.
   */
  lemma {:induction false} DriveFollowsItems(steps: seq<Step>, n: nat, reply: nat -> Outcome, k: nat)
    requires n <= |steps|
    ensures var r := Drive(steps, n, reply, k);
      && r.sentCount <= Sends(steps, n)
      && r.consumed <= n
      && (r.end == Exhausted ==> r.sentCount == Sends(steps, n) && r.consumed == n)
    decreases n
  {
    if n > 0 {
      DriveFollowsItems(steps, n - 1, reply, k);
    }
  }

  /** Once the loop has stopped within the first `n` items, later items change nothing. */
  lemma {:induction false} StopsLater(steps: seq<Step>, n: nat, m: nat, reply: nat -> Outcome, k: nat)
    requires n <= m <= |steps|
    requires Drive(steps, n, reply, k).end != Exhausted
    ensures Drive(steps, m, reply, k) == Drive(steps, n, reply, k)
    decreases m
  {
    if m > n {
      StopsLater(steps, n, m - 1, reply, k);
    }
  }

  /** The signed payloads of the first `n` items begin those of the first `m`. */
  lemma {:induction false} SignedGrows(steps: seq<Step>, n: nat, m: nat, sign: Value -> string)
    requires n <= m <= |steps|
    ensures Signed(steps, n, sign) <= Signed(steps, m, sign)
    decreases m
  {
    if m > n {
      SignedGrows(steps, n, m - 1, sign);
    }
  }

  /** The loop ran out of the first `n` items, sending every value among them. */
  predicate Full(steps: seq<Step>, n: nat, reply: nat -> Outcome, k: nat)
    requires n <= |steps|
  {
    Drive(steps, n, reply, k) == LoopResult(Sends(steps, n), n, Exhausted)
  }

  /** The wait after the `j`-th send past the first `k` ended in a reply or a timeout. */
  predicate GoesOn(reply: nat -> Outcome, k: nat, j: nat)
  {
    reply(k + j).Reply? || reply(k + j).Timeout?
  }

  /** When the loop runs out of the items, every wait after one of its sends ended in a way that lets it go on. */
  lemma {:induction false} DriveAnswered(steps: seq<Step>, n: nat, reply: nat -> Outcome, k: nat)
    requires n <= |steps|
    ensures var r := Drive(steps, n, reply, k);
      r.end == Exhausted ==> forall j: nat :: j < r.sentCount ==> GoesOn(reply, k, j)
    decreases n
  {
    if n > 0 {
      var p := Drive(steps, n - 1, reply, k);
      var h := Head(steps[n - 1], reply, k + p.sentCount);
      if p.end == Exhausted {
        DriveAnswered(steps, n - 1, reply, k);
        HeadFacts(steps[n - 1], reply, k + p.sentCount);
        assert Drive(steps, n, reply, k) == LoopResult(p.sentCount + h.sentCount, p.consumed + 1, h.end);
        if h.end == Exhausted && h.sentCount == 1 {
          assert GoesOn(reply, k, p.sentCount);
        }
      } else {
        assert Drive(steps, n, reply, k) == p;
      }
    }
  }

  /** The loop stops only on the wait after its last send: every earlier wait let it go on. */
  lemma {:induction false} DriveStopsOnLast(steps: seq<Step>, n: nat, reply: nat -> Outcome, k: nat)
    requires n <= |steps|
    ensures var r := Drive(steps, n, reply, k);
      forall j: nat :: j + 1 < r.sentCount ==> GoesOn(reply, k, j)
    decreases n
  {
    if n > 0 {
      var p := Drive(steps, n - 1, reply, k);
      var h := Head(steps[n - 1], reply, k + p.sentCount);
      if p.end == Exhausted {
        DriveAnswered(steps, n - 1, reply, k);
        HeadFacts(steps[n - 1], reply, k + p.sentCount);
        assert Drive(steps, n, reply, k).sentCount <= p.sentCount + 1;
      } else {
        DriveStopsOnLast(steps, n - 1, reply, k);
        assert Drive(steps, n, reply, k) == p;
      }
    }
  }

  /** A lost connection is the outcome of the wait after the last send. */
  lemma {:induction false} DriveLostOnLast(steps: seq<Step>, n: nat, reply: nat -> Outcome, k: nat)
    requires n <= |steps|
    ensures var r := Drive(steps, n, reply, k);
      r.end == ConnectionLost ==> r.sentCount >= 1 && reply(k + r.sentCount - 1) == ConnectionClosed
    decreases n
  {
    if n > 0 {
      var p := Drive(steps, n - 1, reply, k);
      var r := Drive(steps, n, reply, k);
      if p.end == Exhausted {
        var h := Head(steps[n - 1], reply, k + p.sentCount);
        assert r == LoopResult(p.sentCount + h.sentCount, p.consumed + 1, h.end);
        HeadLost(steps[n - 1], reply, k + p.sentCount);
        if r.end == ConnectionLost {
          assert k + r.sentCount - 1 == k + p.sentCount;
        }
      } else {
        DriveLostOnLast(steps, n - 1, reply, k);
        assert Drive(steps, n, reply, k) == p;
      }
    }
  }

  /** An item whose handling loses the connection was sent, as a message that found the connection closed. */
  lemma HeadLost(s: Step, reply: nat -> Outcome, k: nat)
    ensures Head(s, reply, k).end == ConnectionLost ==>
      s.Send? && reply(k) == ConnectionClosed && Head(s, reply, k).sentCount == 1
  {
  }
  /** No item raises: every fetch succeeded and every value to send has its log fields. */
  predicate Clean(steps: seq<Step>)
  {
    forall i :: 0 <= i < |steps| ==> !steps[i].Raise?
  }

  /**
   * Timeouts and rejections never stop the loop: when nothing raises and no
   * reply is a closed connection or another failure, every value is sent,
   * every item is visited and the items run out.
   */
  lemma {:induction false} DriveSendsAll(steps: seq<Step>, n: nat, reply: nat -> Outcome, k: nat)
    requires n <= |steps| && Clean(steps)
    requires forall j: nat :: j < Sends(steps, n) ==> GoesOn(reply, k, j)
    ensures Drive(steps, n, reply, k) == LoopResult(Sends(steps, n), n, Exhausted)
    decreases n
  {
    if n > 0 {
      DriveSendsAll(steps, n - 1, reply, k);
      if steps[n - 1].Send? {
        assert GoesOn(reply, k, Sends(steps, n - 1));
      }
    }
  }

  /** The loop over the first `n` items of `a + b`, with `n` within `a`, is the loop over those of `a`. */
  lemma {:induction false} DrivePrefix(a: seq<Step>, b: seq<Step>, n: nat, reply: nat -> Outcome, k: nat)
    requires n <= |a|
    ensures Drive(a + b, n, reply, k) == Drive(a, n, reply, k)
    decreases n
  {
    if n > 0 {
      DrivePrefix(a, b, n - 1, reply, k);
      assert (a + b)[n - 1] == a[n - 1];
    }
  }

  /** The signed payloads of the first `n` items of `a + b`, with `n` within `a`, are those of `a`. */
  lemma {:induction false} SignedPrefix(a: seq<Step>, b: seq<Step>, n: nat, sign: Value -> string)
    requires n <= |a|
    ensures Signed(a + b, n, sign) == Signed(a, n, sign)
    decreases n
  {
    if n > 0 {
      SignedPrefix(a, b, n - 1, sign);
      assert (a + b)[n - 1] == a[n - 1];
    }
  }

  /** The signed payloads of `a` and the first `m` items of `b` are those of `a`, then those of `b`. */
  lemma {:induction false} SignedAppend(a: seq<Step>, b: seq<Step>, m: nat, sign: Value -> string)
    requires m <= |b|
    ensures Signed(a + b, |a| + m, sign) == Signed(a, |a|, sign) + Signed(b, m, sign)
    decreases m
  {
    if m == 0 {
      SignedPrefix(a, b, |a|, sign);
      assert Signed(a, |a|, sign) + [] == Signed(a, |a|, sign);
    } else {
      SignedAppend(a, b, m - 1, sign);
      assert (a + b)[|a| + m - 1] == b[m - 1];
      var last := b[m - 1];
      var tail := if last.Send? then [sign(last.data)] else [];
      assert Signed(a, |a|, sign) + Signed(b, m - 1, sign) + tail ==
        Signed(a, |a|, sign) + (Signed(b, m - 1, sign) + tail);
    }
  }

  /** Once the loop has stopped inside `a`, nothing after `a` is visited or sent. */
  lemma StopsWithin(a: seq<Step>, b: seq<Step>, sign: Value -> string, reply: nat -> Outcome, k: nat)
    requires Run(a, reply, k).end != Exhausted
    ensures Run(a + b, reply, k) == Run(a, reply, k)
    ensures Sent(a + b, sign, reply, k) == Sent(a, sign, reply, k)
  {
    DrivePrefix(a, b, |a|, reply, k);
    StopsLater(a + b, |a|, |a + b|, reply, k);
    DriveFollowsItems(a, |a|, reply, k);
    SignedAppend(a, b, |b|, sign);
    var n := Run(a, reply, k).sentCount;
    assert (Signed(a, |a|, sign) + Signed(b, |b|, sign))[..n] == Signed(a, |a|, sign)[..n];
  }

  /** A loop that ran out of the first `n` items met no item that raises among them. */
  lemma {:induction false} DriveExhaustedClean(steps: seq<Step>, n: nat, reply: nat -> Outcome, k: nat)
    requires n <= |steps|
    requires Drive(steps, n, reply, k).end == Exhausted
    ensures forall i :: 0 <= i < n ==> !steps[i].Raise?
    decreases n
  {
    if n > 0 {
      var p := Drive(steps, n - 1, reply, k);
      assert p.end == Exhausted;
      DriveExhaustedClean(steps, n - 1, reply, k);
      HeadFacts(steps[n - 1], reply, k + p.sentCount);
    }
  }

  /** After running out of the first `i` items, the loop visits item `i` and sends its value if it has one. */
  lemma StepAfterFull(steps: seq<Step>, i: nat, n: nat, reply: nat -> Outcome, k: nat)
    requires i < |steps| && n == i + 1 && Full(steps, i, reply, k)
    ensures Drive(steps, n, reply, k) ==
      LoopResult(Sends(steps, n), n, Head(steps[i], reply, k + Sends(steps, i)).end)
  {
    HeadFacts(steps[i], reply, k + Sends(steps, i));
  }

  /** The loop sends exactly the values among the items it visits, and visits at most the items there are. */
  lemma {:induction false} DriveVisits(steps: seq<Step>, n: nat, reply: nat -> Outcome, k: nat)
    requires n <= |steps|
    ensures Drive(steps, n, reply, k).consumed <= n
    ensures Drive(steps, n, reply, k).sentCount == Sends(steps, Drive(steps, n, reply, k).consumed)
    decreases n
  {
    if n > 0 {
      var p := Drive(steps, n - 1, reply, k);
      var r := Drive(steps, n, reply, k);
      if p.end == Exhausted {
        DriveFollowsItems(steps, n - 1, reply, k);
        StepAfterFull(steps, n - 1, n, reply, k);
      } else {
        DriveVisits(steps, n - 1, reply, k);
        assert r == p;
        assert Sends(steps, r.consumed) == Sends(steps, p.consumed);
      }
    }
  }

  /**
   * The loop sends each visited value exactly once, in item order, and nothing
   * after it stops: what it sent is the signed payloads of the items it visited.
   */
  lemma SentVisited(steps: seq<Step>, sign: Value -> string, reply: nat -> Outcome, k: nat)
    ensures Run(steps, reply, k).consumed <= |steps|
    ensures Sent(steps, sign, reply, k) == Signed(steps, Run(steps, reply, k).consumed, sign)
  {
    var c := Run(steps, reply, k).consumed;
    DriveVisits(steps, |steps|, reply, k);
    SignedGrows(steps, c, |steps|, sign);
  }

  /** When no item of `a + b` raises, no item of `b` does. */
  lemma CleanSuffix(a: seq<Step>, b: seq<Step>)
    requires Clean(a + b)
    ensures Clean(b)
  {
    forall i | 0 <= i < |b|
      ensures !b[i].Raise?
    {
      assert (a + b)[|a| + i] == b[i];
    }
  }

  /**
   * The loop over `a + b` sends payloads in item order: what it sent begins the
   * signed payloads of `a`, followed by those of `b`.
   */
  lemma SentInItemOrder(a: seq<Step>, b: seq<Step>, sign: Value -> string, reply: nat -> Outcome, k: nat)
    ensures Sent(a + b, sign, reply, k) <= Signed(a, |a|, sign) + Signed(b, |b|, sign)
  {
    DriveFollowsItems(a + b, |a + b|, reply, k);
    SignedAppend(a, b, |b|, sign);
  }

  /**
   * When no item of `a + b` raises and the wait after each of its sends ends in
   * a reply or a timeout, the loop visits every item and sends every signed payload of `a`,
   * then of `b`.
   */
  lemma SendsEverything(a: seq<Step>, b: seq<Step>, sign: Value -> string, reply: nat -> Outcome, k: nat)
    requires Clean(a + b)
    requires forall j: nat :: j < Sends(a + b, |a + b|) ==> GoesOn(reply, k, j)
    ensures Run(a + b, reply, k).end == Exhausted && Run(a + b, reply, k).consumed == |a| + |b|
    ensures Sent(a + b, sign, reply, k) == Signed(a, |a|, sign) + Signed(b, |b|, sign)
  {
    DriveSendsAll(a + b, |a + b|, reply, k);
    SentAll(a + b, sign, reply, k);
    SignedAppend(a, b, |b|, sign);
  }

  /** When the loop sends every value there is, what it sent is all the signed payloads. */
  lemma SentAll(steps: seq<Step>, sign: Value -> string, reply: nat -> Outcome, k: nat)
    requires Run(steps, reply, k).sentCount == Sends(steps, |steps|)
    ensures Sent(steps, sign, reply, k) == Signed(steps, |steps|, sign)
  {
  }

  /**
   * The loop ran out of the first `i` items and goes on past item `i`: it
   * runs out of the first `i + 1` items too, having sent every value among them.
   */
  lemma GoesPast(steps: seq<Step>, i: nat, reply: nat -> Outcome, k: nat)
    requires i < |steps|
    requires Full(steps, i, reply, k)
    requires Proceeds(steps[i], reply, k + Sends(steps, i))
    ensures Full(steps, i + 1, reply, k)
  {
  }

  /**
   * The loop over all of `steps` when it ran out of the first `i` items and
   * item `i` stops it: it ends as the handling of item `i` does, having sent
   * the signed payloads of the first `i + 1` items.
   */
  lemma StopsAtItem(steps: seq<Step>, i: nat, sign: Value -> string, reply: nat -> Outcome, k: nat)
    requires i < |steps|
    requires Full(steps, i, reply, k)
    requires !Proceeds(steps[i], reply, k + Sends(steps, i))
    ensures Run(steps, reply, k) ==
      LoopResult(Sends(steps, i + 1), i + 1, Head(steps[i], reply, k + Sends(steps, i)).end)
    ensures Sent(steps, sign, reply, k) == Signed(steps, i + 1, sign)
  {
    StopsLater(steps, i + 1, |steps|, reply, k);
    SignedGrows(steps, i + 1, |steps|, sign);
  }

  /** An item skipped or raising while the loop was running out of the first `j` items. */
  lemma AtQuietItem(steps: seq<Step>, j: nat, sign: Value -> string, reply: nat -> Outcome, s0: seq<string>)
    requires j < |steps| && !steps[j].Send?
    requires Full(steps, j, reply, |s0|)
    ensures Signed(steps, j + 1, sign) == Signed(steps, j, sign)
    ensures steps[j].Skip? ==>
      Full(steps, j + 1, reply, |s0|)
    ensures steps[j].Raise? ==>
      && Signed(steps, j, sign) == Sent(steps, sign, reply, |s0|)
      && Run(steps, reply, |s0|).end == Escaped
      && Run(steps, reply, |s0|).consumed == j + 1
  {
    assert Signed(steps, j, sign) + [] == Signed(steps, j, sign);
    if steps[j].Skip? {
      GoesPast(steps, j, reply, |s0|);
    } else {
      StopsAtItem(steps, j, sign, reply, |s0|);
    }
  }

  /** Item `j` is a value to send, and the outcome of the wait after its send lets the loop go on. */
  lemma Answered(steps: seq<Step>, j: nat, reply: nat -> Outcome, k: nat)
    requires j < |steps| && steps[j].Send?
    requires Full(steps, j, reply, k)
    requires GoesOn(reply, k, Sends(steps, j))
    ensures Full(steps, j + 1, reply, k)
  {
    GoesPast(steps, j, reply, k);
  }

  /** Item `j` is a value to send, and the outcome of the wait after its send stops the loop. */
  lemma Unanswered(steps: seq<Step>, j: nat, sign: Value -> string, reply: nat -> Outcome, k: nat, x: nat)
    requires j < |steps| && steps[j].Send?
    requires Full(steps, j, reply, k)
    requires x == k + Sends(steps, j) && !(reply(x).Reply? || reply(x).Timeout?)
    ensures Sent(steps, sign, reply, k) == Signed(steps, j + 1, sign)
    ensures Run(steps, reply, k).end == (if reply(x).ConnectionClosed? then ConnectionLost else Escaped)
    ensures Run(steps, reply, k).consumed == j + 1
  {
    StopsAtItem(steps, j, sign, reply, k);
  }

  /**
   * One truthy value handed to `send_to_ws` while the loop was running out of
   * the first `j` items: the outcome of the wait after the send decides whether the loop goes on past item
   * `j` or stops there, and what the socket has been sent so far.
   */
  lemma AfterSend(steps: seq<Step>, j: nat, data: Value, st: SendStatus, sign: Value -> string,
                  reply: nat -> Outcome, s0: seq<string>, before: seq<string>, after: seq<string>)
    requires j < |steps| && steps[j] == ValueStep(data) && Truthy(data)
    requires Full(steps, j, reply, |s0|)
    requires before == s0 + Signed(steps, j, sign)
    requires HasLogFields(data) ==> after == before + [sign(data)] && st == Classify(reply(|before|))
    requires !HasLogFields(data) ==> after == before && st == MissingField
    ensures after == s0 + Signed(steps, j + 1, sign)
    ensures Continues(st) ==>
      Full(steps, j + 1, reply, |s0|)
    ensures !Continues(st) ==>
      && after == s0 + Sent(steps, sign, reply, |s0|)
      && Run(steps, reply, |s0|).end == (if st == Closed then ConnectionLost else Escaped)
      && Run(steps, reply, |s0|).consumed == j + 1
  {
    if HasLogFields(data) {
      assert s0 + Signed(steps, j, sign) + [sign(data)] == s0 + (Signed(steps, j, sign) + [sign(data)]);
      if Continues(st) {
        Answered(steps, j, reply, |s0|);
      } else {
        Unanswered(steps, j, sign, reply, |s0|, |before|);
      }
    } else {
      AtQuietItem(steps, j, sign, reply, s0);
    }
  }

  /**
   * A loop that ran out of the first `n` items has visited at least `n` items
   * and sent at least their values, whatever follows.
   */
  lemma {:induction false} FullReached(steps: seq<Step>, n: nat, m: nat, reply: nat -> Outcome, k: nat)
    requires n <= m <= |steps| && Full(steps, n, reply, k)
    ensures n <= Drive(steps, m, reply, k).consumed
    ensures Sends(steps, n) <= Drive(steps, m, reply, k).sentCount
    decreases m
  {
    if m > n {
      FullReached(steps, n, m - 1, reply, k);
    }
  }

  /** The first `n` items of `all` are the CEX items of the first `n` labels of `order`. */
  predicate CexPrefix(all: seq<Step>, order: seq<string>, gofer: string -> GoferOutcome, n: nat)
    requires n <= |order| && n <= |all|
  {
    n == 0 || (CexPrefix(all, order, gofer, n - 1) && all[n - 1] == CexStep(order[n - 1], gofer(order[n - 1])))
  }

  lemma {:induction false} CexPrefixAt(all: seq<Step>, order: seq<string>, gofer: string -> GoferOutcome, n: nat, i: nat)
    requires n <= |order| && n <= |all| && i < n && CexPrefix(all, order, gofer, n)
    ensures var f := FetchCexData(order[i], gofer(order[i]));
      all[i] == if f.Raised? then Raise else ValueStep(f.value)
    decreases n
  {
    if i < n - 1 {
      CexPrefixAt(all, order, gofer, n - 1, i);
    }
  }

  /**
   * The CEX loop of `fetch_and_send`: pull the items of the CEX generator one
   * at a time (fetching each label only when the previous one is done) and send
   * the non-empty ones. `all` is every item the send loop visits, starting with
   * the CEX items; the CEX loop either runs out of them or ends the whole loop.
   */
  method SendCex(socket: ValidatorSocket, order: seq<string>, gofer: string -> GoferOutcome,
                 sign: Value -> string, ghost all: seq<Step>)
    returns (end: LoopEnd, fetched: nat)
    requires socket.open
    requires |order| <= |all|
    requires CexPrefix(all, order, gofer, |order|)
    modifies socket
    ensures end == Exhausted ==>
      && socket.open && fetched == |order|
      && Full(all, |order|, socket.reply, |old(socket.sent)|)
      && socket.sent == old(socket.sent) + Signed(all, |order|, sign)
    ensures end != Exhausted ==>
      var r := Run(all, socket.reply, |old(socket.sent)|);
      && end == r.end && fetched == r.consumed && fetched <= |order|
      && socket.sent == old(socket.sent) + Sent(all, sign, socket.reply, |old(socket.sent)|)
    ensures socket.open <==> end != ConnectionLost
  {
    ghost var s0 := socket.sent;
    ghost var reply := socket.reply;
    var i := 0;
    while i < |order|
      invariant 0 <= i <= |order|
      invariant socket.open && socket.reply == reply
      invariant Full(all, i, reply, |s0|)
      invariant socket.sent == s0 + Signed(all, i, sign)
    {
      var fetched := FetchCexData(order[i], gofer(order[i]));
      CexPrefixAt(all, order, gofer, |order|, i);
      if fetched.Raised? || !Truthy(fetched.value) {
        AtQuietItem(all, i, sign, reply, s0);
        if fetched.Raised? {
          return Escaped, i + 1;
        }
        i := i + 1;
        continue;
      }
      var res := fetched.value;
      ghost var before := socket.sent;
      var st := SendToWs(socket, res, sign);
      AfterSend(all, i, res, st, sign, reply, s0, before, socket.sent);
      if !Continues(st) {
        end := if st == Closed then ConnectionLost else Escaped;
        return end, i + 1;
      }
      i := i + 1;
    }
    end, fetched := Exhausted, |order|;
  }

  /** The items of `all` from `start` on, the first `n` of them, are the DEX items of the first `n` entries of `data`. */
  predicate DexSuffix(all: seq<Step>, start: nat, data: seq<Value>, n: nat)
    requires n <= |data| && start + n <= |all|
  {
    n == 0 || (DexSuffix(all, start, data, n - 1) && all[start + n - 1] == ValueStep(data[n - 1]))
  }

  lemma {:induction false} DexSuffixAt(all: seq<Step>, start: nat, data: seq<Value>, n: nat, j: nat)
    requires n <= |data| && start + n <= |all| && j < n && DexSuffix(all, start, data, n)
    ensures all[start + j] == ValueStep(data[j])
    decreases n
  {
    if j < n - 1 {
      DexSuffixAt(all, start, data, n - 1, j);
    }
  }

  lemma {:induction false} DexSuffixOf(cs: seq<Step>, ds: seq<Step>, data: seq<Value>, n: nat)
    requires ds == DexSteps(data) && n <= |data|
    ensures DexSuffix(cs + ds, |cs|, data, n)
    decreases n
  {
    if n > 0 {
      DexSuffixOf(cs, ds, data, n - 1);
      assert (cs + ds)[|cs| + n - 1] == ds[n - 1];
    }
  }

  /**
   * The DEX loop of `fetch_and_send`: send the non-empty entries of the batch in
   * order. It takes over the send loop after the first `start` items of `all`,
   * which the loop ran out of; the entries are the rest of `all`.
   */
  method SendDex(socket: ValidatorSocket, dexData: seq<Value>, sign: Value -> string,
                 ghost all: seq<Step>, ghost start: nat, ghost s0: seq<string>)
    returns (end: LoopEnd)
    requires socket.open
    requires start + |dexData| == |all|
    requires DexSuffix(all, start, dexData, |dexData|)
    requires Full(all, start, socket.reply, |s0|)
    requires socket.sent == s0 + Signed(all, start, sign)
    modifies socket
    ensures socket.sent == s0 + Sent(all, sign, socket.reply, |s0|)
    ensures end == Run(all, socket.reply, |s0|).end
    ensures socket.open <==> end != ConnectionLost
  {
    ghost var reply := socket.reply;
    var j := 0;
    while j < |dexData|
      invariant 0 <= j <= |dexData|
      invariant socket.open && socket.reply == reply
      invariant Full(all, start + j, reply, |s0|)
      invariant socket.sent == s0 + Signed(all, start + j, sign)
    {
      var data := dexData[j];
      DexSuffixAt(all, start, dexData, |dexData|, j);
      if !Truthy(data) {
        AtQuietItem(all, start + j, sign, reply, s0);
        j := j + 1;
        continue;
      }
      ghost var before := socket.sent;
      var st := SendToWs(socket, data, sign);
      AfterSend(all, start + j, data, st, sign, reply, s0, before, socket.sent);
      if !Continues(st) {
        end := if st == Closed then ConnectionLost else Escaped;
        return end;
      }
      j := j + 1;
    }
    SentAll(all, sign, reply, |s0|);
    end := Exhausted;
  }

  lemma {:induction false} CexPrefixOf(cs: seq<Step>, ds: seq<Step>, order: seq<string>, gofer: string -> GoferOutcome, n: nat)
    requires cs == CexSteps(order, gofer) && n <= |order|
    ensures CexPrefix(cs + ds, order, gofer, n)
    decreases n
  {
    if n > 0 {
      CexPrefixOf(cs, ds, order, gofer, n - 1);
      assert (cs + ds)[n - 1] == cs[n - 1];
    }
  }

  /**
   * The send loop of `fetch_and_send` on an open connection: the CEX items,
   * then, if the DEX path is enabled and the CEX loop ran out, the DEX entries;
   * `ConnectionClosedError` or any other exception ends the loop. `cexFetched`
   * counts the labels fetched from the collector.
   */
  method SubmitAll(socket: ValidatorSocket, order: seq<string>, gofer: string -> GoferOutcome,
                   dexData: seq<Value>, cntEnabled: bool, sign: Value -> string)
    returns (end: LoopEnd, cexFetched: nat)
    requires socket.open
    modifies socket
    ensures var all := AllSteps(order, gofer, dexData, cntEnabled);
      var r := Run(all, socket.reply, |old(socket.sent)|);
      && socket.sent == old(socket.sent) + Sent(all, sign, socket.reply, |old(socket.sent)|)
      && end == r.end
      && cexFetched == if r.consumed < |order| then r.consumed else |order|
    ensures socket.open <==> end != ConnectionLost
  {
    ghost var s0 := socket.sent;
    ghost var reply := socket.reply;
    ghost var cs := CexSteps(order, gofer);
    ghost var ds := if cntEnabled then DexSteps(dexData) else [];
    ghost var all := cs + ds;
    assert AllSteps(order, gofer, dexData, cntEnabled) == all;
    CexPrefixOf(cs, ds, order, gofer, |order|);
    end, cexFetched := SendCex(socket, order, gofer, sign, all);
    if end != Exhausted {
      return;
    }
    FullReached(all, |order|, |all|, reply, |s0|);
    if !cntEnabled {
      SentAll(all, sign, reply, |s0|);
      return;
    }
    DexSuffixOf(cs, ds, dexData, |dexData|);
    end := SendDex(socket, dexData, sign, all, |order|, s0);
  }
}
