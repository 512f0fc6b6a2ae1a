/**
 * The SPI link to the battery-monitor chain, abstracted to the operations
 * the driver issues: chip-select low/high, one 16-bit word exchange and a
 * busy-wait. What the chain answers during a transfer is supplied by the
 * caller; the pins, the SPI peripheral and the clock are not modelled.
 */
module Bus {
  import opened Common

  datatype Op = CsLow | CsHigh | Xfer(word: u16) | Delay(micros: nat)

  /** The words driven onto the bus, in order. */
  function Sent(ops: seq<Op>): (ws: seq<u16>)
    ensures |ws| <= |ops|
  {
    if ops == [] then []
    else (if ops[0].Xfer? then [ops[0].word] else []) + Sent(ops[1..])
  }

  /** Transfers of the given words, without chip-select. */
  function Xfers(words: seq<u16>): (ops: seq<Op>)
    ensures |ops| == |words|
    ensures forall i | 0 <= i < |ops| :: ops[i].Xfer? && ops[i].word == words[i]
  {
    seq(|words|, i requires 0 <= i < |words| => Xfer(words[i]))
  }

  /** One bus transaction: select the chain, exchange the words, release the chain. */
  function Transaction(words: seq<u16>): (ops: seq<Op>)
    ensures |ops| == |words| + 2 && ops[0] == CsLow && ops[|ops| - 1] == CsHigh
  {
    [CsLow] + Xfers(words) + [CsHigh]
  }

  /**
   * Starting with chip-select at the given level, every transfer happens
   * while the chain is selected and chip-select is released at the end.
   */
  predicate FramedFrom(ops: seq<Op>, high: bool)
  {
    if ops == [] then high
    else match ops[0]
      case CsLow => FramedFrom(ops[1..], false)
      case CsHigh => FramedFrom(ops[1..], true)
      case Xfer(_) => !high && FramedFrom(ops[1..], high)
      case Delay(_) => FramedFrom(ops[1..], high)
  }

  /** A sequence of operations that starts and ends with the chain released and transfers only while selected. */
  predicate Framed(ops: seq<Op>)
  {
    FramedFrom(ops, true)
  }

  lemma {:induction false} XfersWhileSelected(words: seq<u16>, rest: seq<Op>)
    ensures FramedFrom(Xfers(words) + rest, false) == FramedFrom(rest, false)
    ensures Sent(Xfers(words) + rest) == words + Sent(rest)
    decreases |words|
  {
    if words != [] {
      var ops := Xfers(words) + rest;
      assert ops[0] == Xfer(words[0]);
      assert ops[1..] == Xfers(words[1..]) + rest;
      XfersWhileSelected(words[1..], rest);
      assert words == [words[0]] + words[1..];
    } else {
      assert Xfers(words) + rest == rest;
    }
  }

  /** A transaction is framed and sends exactly its words. */
  lemma TransactionFramed(words: seq<u16>)
    ensures Framed(Transaction(words))
    ensures Sent(Transaction(words)) == words
  {
    var ops := Transaction(words);
    assert ops[1..] == Xfers(words) + [CsHigh];
    XfersWhileSelected(words, [CsHigh]);
    assert [CsHigh][1..] == [];
  }

  /** Framed sequences compose. */
  lemma {:induction false} FramedAppend(a: seq<Op>, b: seq<Op>, high: bool)
    requires FramedFrom(a, high) && Framed(b)
    ensures FramedFrom(a + b, high)
    decreases |a|
  {
    if a == [] {
      assert a + b == b;
    } else {
      assert (a + b)[0] == a[0] && (a + b)[1..] == a[1..] + b;
      var next := if a[0].CsLow? then false else if a[0].CsHigh? then true else high;
      FramedAppend(a[1..], b, next);
    }
  }

  /** The words sent by two operation sequences in a row are those of each, concatenated. */
  lemma {:induction false} SentAppend(a: seq<Op>, b: seq<Op>)
    ensures Sent(a + b) == Sent(a) + Sent(b)
    decreases |a|
  {
    if a == [] {
      assert a + b == b;
    } else {
      assert (a + b)[0] == a[0] && (a + b)[1..] == a[1..] + b;
      SentAppend(a[1..], b);
    }
  }

  /** A transfer outside a transaction breaks the framing. */
  lemma UnselectedTransferNotFramed(w: u16, rest: seq<Op>)
    ensures !Framed([Xfer(w)] + rest)
  {
    assert ([Xfer(w)] + rest)[0] == Xfer(w);
  }
}
