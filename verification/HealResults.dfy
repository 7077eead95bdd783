/**
 The result stream of one heal sequence (cmd/admin-heal-ops.go): the healer pushes numbered results
 into a bounded buffer, the heal-status call drains it.  Both hold the sequence's mutex.
 */
module HealResults {
  import opened Prelude

  /** A sequence with this many unconsumed results blocks. */
  const MAX_UNCONSUMED: nat := 1000

  datatype Item = Item(index: int, payload: int)

  /** The buffer and the index of the last result handed out. */
  datatype Buffer = Buffer(items: seq<Item>, lastSent: int)

  function Empty(): Buffer { Buffer([], 0) }

  datatype Step =
    | Push(payload: int)
    | Pop(encodes: bool)

  function NextIndex(b: Buffer): int {
    if |b.items| > 0 then 1 + b.items[|b.items| - 1].index else 1 + b.lastSent
  }

  /** One locked region; a push into a full buffer changes nothing and waits, stops or times out. */
  function Apply(b: Buffer, s: Step): Buffer {
    match s
    case Push(p) =>
      if |b.items| == MAX_UNCONSUMED then b
      else Buffer(b.items + [Item(NextIndex(b), p)], b.lastSent)
    case Pop(_) =>
      Buffer([], if |b.items| > 0 then b.items[|b.items| - 1].index else b.lastSent)
  }

  // ---------- the object ----------

  datatype PushError = StopSignalled | IdleTimeout

  /** What ends a wait of one second on a full buffer. */
  datatype Wait = NextRound | StopSignal | Timeout

  class ResultStream {
    var items: seq<Item>
    var lastSentResultIndex: int

    ghost function View(): Buffer
      reads this
    {
      Buffer(items, lastSentResultIndex)
    }

    constructor ()
      ensures View() == Empty()
    {
      items, lastSentResultIndex := [], 0;
    }

    /** One round of pushHealResultItem under the lock: None asks for another round. */
    method PushRound(payload: int, wait: Wait) returns (done: Option<Result<int, PushError>>)
      modifies this`items
      ensures View() == Apply(old(View()), Push(payload))
      ensures old(|items|) == 1000 ==>
                items == old(items) &&
                done == match wait
                        case NextRound => None
                        case StopSignal => Some(Err(StopSignalled))
                        case Timeout => Some(Err(IdleTimeout))
      ensures old(|items|) != 1000 ==>
                && |items| == old(|items|) + 1 && items[..old(|items|)] == old(items)
                && items[old(|items|)].payload == payload && done == Some(Ok(items[old(|items|)].index))
    {
      var itemsLen := |items|;
      if itemsLen == MAX_UNCONSUMED {
        match wait {
          case NextRound => return None;
          case StopSignal => return Some(Err(StopSignalled));
          case Timeout => return Some(Err(IdleTimeout));
        }
      }
      var index;
      if itemsLen > 0 {
        index := 1 + items[itemsLen - 1].index;
      } else {
        index := 1 + lastSentResultIndex;
      }
      items := items + [Item(index, payload)];
      return Some(Ok(index));
    }

    /** PopHealStatusJSON under the lock: the batch is dropped from the buffer even if it cannot be encoded. */
    method PopHealStatus(encodes: bool) returns (batch: Option<seq<Item>>)
      modifies this
      ensures View() == Apply(old(View()), Pop(encodes))
      ensures batch == if encodes then Some(old(items)) else None
    {
      var numItems := |items|;
      var lastResultIndex := lastSentResultIndex;
      if numItems > 0 {
        lastResultIndex := items[numItems - 1].index;
      }
      lastSentResultIndex := lastResultIndex;
      if !encodes {
        items := [];
        return None;
      }
      batch := Some(items);
      items := [];
    }
  }

  // ---------- whole runs ----------

  ghost function Run(b: Buffer, steps: seq<Step>): Buffer
    decreases |steps|
  {
    if steps == [] then b else Run(Apply(b, steps[0]), steps[1..])
  }

  /** The results taken out of the buffer by the pops of a run, in order. */
  ghost function Drained(b: Buffer, steps: seq<Step>): seq<Item>
    decreases |steps|
  {
    if steps == [] then []
    else (if steps[0].Pop? then b.items else []) + Drained(Apply(b, steps[0]), steps[1..])
  }

  /** The results that reached the client. */
  ghost function Delivered(b: Buffer, steps: seq<Step>): seq<Item>
    decreases |steps|
  {
    if steps == [] then []
    else (if steps[0] == Pop(true) then b.items else []) + Delivered(Apply(b, steps[0]), steps[1..])
  }

  /** The payloads of the pushes that found room. */
  ghost function Pushed(b: Buffer, steps: seq<Step>): seq<int>
    decreases |steps|
  {
    if steps == [] then []
    else (if steps[0].Push? && |b.items| != MAX_UNCONSUMED then [steps[0].payload] else [])
         + Pushed(Apply(b, steps[0]), steps[1..])
  }

  /** Payloads numbered consecutively from `first`. */
  ghost function Numbered(first: int, payloads: seq<int>): seq<Item> {
    seq(|payloads|, i requires 0 <= i < |payloads| => Item(first + i, payloads[i]))
  }

  lemma {:induction false} NumberedConcat(first: int, a: seq<int>, b: seq<int>)
    ensures Numbered(first, a + b) == Numbered(first, a) + Numbered(first + |a|, b)
  {
  }

  /** The buffer holds consecutive indices that follow the last one handed out. */
  ghost predicate Consecutive(b: Buffer) {
    && |b.items| <= MAX_UNCONSUMED
    && forall i :: 0 <= i < |b.items| ==> b.items[i].index == b.lastSent + 1 + i
  }

  lemma {:induction false} RunFrom(b: Buffer, steps: seq<Step>)
    requires Consecutive(b)
    ensures Consecutive(Run(b, steps))
    ensures Drained(b, steps) + Run(b, steps).items
         == b.items + Numbered(b.lastSent + 1 + |b.items|, Pushed(b, steps))
    decreases |steps|
  {
    var next := b.lastSent + 1 + |b.items|;
    if steps == [] {
      assert Drained(b, steps) + b.items == b.items + Numbered(next, []);
    } else {
      var b' := Apply(b, steps[0]);
      var rest := steps[1..];
      RunFrom(b', rest);
      var tail := Pushed(b', rest);
      match steps[0]
      case Pop(_) => PopStep(b, steps, b', rest, tail);
      case Push(p) =>
        assert [] + Drained(b', rest) == Drained(b', rest);
        if |b.items| == MAX_UNCONSUMED {
          assert [] + tail == tail;
        } else {
          PushStep(b, p, b', tail);
        }
    }
  }

  lemma {:induction false} PopStep(b: Buffer, steps: seq<Step>, b': Buffer, rest: seq<Step>, tail: seq<int>)
    requires steps != [] && steps[0].Pop? && rest == steps[1..] && b' == Apply(b, steps[0]) && tail == Pushed(b', rest)
    requires Consecutive(b)
    requires Drained(b', rest) + Run(b', rest).items == b'.items + Numbered(b'.lastSent + 1 + |b'.items|, tail)
    ensures Drained(b, steps) + Run(b, steps).items
         == b.items + Numbered(b.lastSent + 1 + |b.items|, Pushed(b, steps))
  {
    var d, e := Drained(b', rest), Run(b', rest).items;
    PopNext(b, steps[0], b');
    assert Drained(b, steps) == b.items + d && Run(b, steps).items == e && Pushed(b, steps) == [] + tail;
    assert [] + tail == tail;
    PopGlue(b.items, d, e, Numbered(b.lastSent + 1 + |b.items|, tail));
  }

  lemma PopGlue(items: seq<Item>, d: seq<Item>, e: seq<Item>, numbered: seq<Item>)
    requires d + e == [] + numbered
    ensures (items + d) + e == items + numbered
  {
    ConcatAssoc(items, d, e);
    assert [] + numbered == numbered;
  }

  lemma PopNext(b: Buffer, s: Step, b': Buffer)
    requires Consecutive(b) && s.Pop? && b' == Apply(b, s)
    ensures b'.items == [] && b'.lastSent + 1 == b.lastSent + 1 + |b.items|
  {
  }

  lemma {:induction false} PushStep(b: Buffer, p: int, b': Buffer, tail: seq<int>)
    requires Consecutive(b) && |b.items| != MAX_UNCONSUMED && b' == Apply(b, Push(p))
    ensures var next := b.lastSent + 1 + |b.items|;
            b'.items + Numbered(b'.lastSent + 1 + |b'.items|, tail) == b.items + Numbered(next, [p] + tail)
  {
    var next := b.lastSent + 1 + |b.items|;
    var item := Item(NextIndex(b), p);
    NumberedConcat(next, [p], tail);
    assert Numbered(next, [p]) == [item];
    ConcatAssoc(b.items, [item], Numbered(next + 1, tail));
  }

  /**
   For every interleaving of pushes and pops, what was drained followed by what is buffered is exactly
   the accepted payloads in order, numbered 1, 2, ..., n: no gap, no repeat, no reordering.  The
   buffer never holds more than a thousand results.
   */
  lemma ResultsAreNumberedInOrder(steps: seq<Step>)
    ensures Drained(Empty(), steps) + Run(Empty(), steps).items == Numbered(1, Pushed(Empty(), steps))
    ensures |Run(Empty(), steps).items| <= 1000
  {
    RunFrom(Empty(), steps);
    var all := Numbered(1, Pushed(Empty(), steps));
    assert [] + all == all;
  }

  /** Every pop that fails to encode drains an empty buffer. */
  ghost predicate LosesNothing(b: Buffer, steps: seq<Step>)
    decreases |steps|
  {
    steps == [] || ((steps[0] == Pop(false) ==> b.items == []) && LosesNothing(Apply(b, steps[0]), steps[1..]))
  }

  /** The client sees every drained result exactly when no encoding failure hits a non-empty batch. */
  lemma {:induction false} DeliveredIsDrained(b: Buffer, steps: seq<Step>)
    ensures |Delivered(b, steps)| <= |Drained(b, steps)|
    ensures Delivered(b, steps) == Drained(b, steps) <==> LosesNothing(b, steps)
    decreases |steps|
  {
    if steps != [] {
      var b', rest := Apply(b, steps[0]), steps[1..];
      DeliveredIsDrained(b', rest);
      var d, e := Delivered(b', rest), Drained(b', rest);
      if steps[0] == Pop(true) {
        assert (b.items + d)[|b.items|..] == d && (b.items + e)[|b.items|..] == e;
      } else if steps[0] == Pop(false) {
        assert [] + d == d;
        if b.items == [] {
          assert b.items + e == e;
        }
      } else {
        assert [] + d == d && [] + e == e;
      }
    }
  }
}
