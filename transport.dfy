/** An abstract two-wire bus. Each transaction writes a register address
    (optionally followed by a value) to the slave and then reads a number of
    bytes back; the bus reports success and hands over the bytes read.

    The bus answers from a finite script of replies fixed when it is
    created, one reply per transaction, and records every transaction with
    its answer in a trace. A reply's bytes reach the caller's buffer whether
    or not the reply reports success; a bus whose script is used up reports
    failure and reads zero bytes. */
module Transport {

  datatype Txn = Txn(slave: bv8, write: seq<bv8>, readCount: nat)

  datatype Reply = Reply(ok: bool, bytes: seq<bv8>)

  /** One transaction as it happened: what was asked and what came back. */
  datatype Event = Event(txn: Txn, ok: bool, data: seq<bv8>)

  /** The register-write transaction: address, then value, nothing read. */
  function WriteTxn(slave: bv8, reg: bv8, value: bv8): Txn {
    Txn(slave, [reg, value], 0)
  }

  /** The register-read transaction: address, then count bytes read. */
  function ReadTxn(slave: bv8, reg: bv8, count: nat): Txn {
    Txn(slave, [reg], count)
  }

  /** The first n bytes of a reply, padded with zeros. */
  function Fit(bytes: seq<bv8>, n: nat): (r: seq<bv8>)
    ensures |r| == n
    ensures forall i :: 0 <= i < n ==> r[i] == if i < |bytes| then bytes[i] else 0
  {
    seq(n, i requires 0 <= i < n => if i < |bytes| then bytes[i] else 0)
  }

  /** The script left after k transactions. */
  function Drop(script: seq<Reply>, k: nat): (r: seq<Reply>)
    ensures |r| == if k <= |script| then |script| - k else 0
  {
    if k <= |script| then script[k..] else []
  }

  /** The event of transaction txn answered by the first reply of script. */
  function Answer(script: seq<Reply>, txn: Txn): (e: Event)
    ensures e.txn == txn && |e.data| == txn.readCount
    ensures e.ok <==> script != [] && script[0].ok
    ensures script == [] ==> forall i :: 0 <= i < |e.data| ==> e.data[i] == 0
  {
    if script == [] then Event(txn, false, Fit([], txn.readCount))
    else Event(txn, script[0].ok, Fit(script[0].bytes, txn.readCount))
  }

  /** Event i is its transaction answered by reply i of script, or as by an
      exhausted bus once the script is used up. */
  ghost predicate Replied(script: seq<Reply>, events: seq<Event>, i: nat)
    requires i < |events|
  {
    events[i] == Answer(Drop(script, i), events[i].txn)
  }

  /** The events are the answers of the script's replies, in order. */
  ghost predicate Replays(script: seq<Reply>, events: seq<Event>) {
    forall i: nat :: i < |events| ==> Replied(script, events, i)
  }

  class Bus {
    /** Replies not yet used. */
    var script: seq<Reply>
    /** Every transaction so far, with its answer, oldest first. */
    var trace: seq<Event>
    /** The script as the bus was created with it. */
    ghost const initial: seq<Reply>

    /** The trace is the initial script's answer to the transactions made,
        and the replies not yet used are those after them. */
    ghost predicate Valid()
      reads this
    {
      Replays(initial, trace) && script == Drop(initial, |trace|)
    }

    constructor (replies: seq<Reply>)
      ensures Valid() && initial == replies && trace == [] && script == replies
    {
      script := replies;
      trace := [];
      initial := replies;
    }

    /** Perform one transaction: answer it with the next reply and log it. */
    method Transfer(txn: Txn) returns (ok: bool, data: seq<bv8>)
      requires Valid()
      modifies this
      ensures Valid()
      ensures trace == old(trace) + [Answer(old(script), txn)]
      ensures script == Drop(old(script), 1)
      ensures ok == Answer(old(script), txn).ok && data == Answer(old(script), txn).data
      ensures |data| == txn.readCount
    {
      var e := Answer(script, txn);
      ok, data := e.ok, e.data;
      script := Drop(script, 1);
      trace := trace + [e];
      forall i: nat | i < |trace|
        ensures Replied(initial, trace, i)
      {
        if i < |old(trace)| {
          assert Replied(initial, old(trace), i);
        }
      }
    }
  }
}
