/** What the two transfer modes have in common: the configuration of a transfer, the sender's place in its
    loop, and the actions of which runs are made.

    One action is one pass through part of a loop: the sender's loop body is a send at its head followed by one
    poll of the socket, and the receiver handles one packet at a time. Either channel is a sequence of
    messages in flight; any of them may be delivered next, lost, or copied. */
module Protocol {
  import opened Words
  import opened Transfer

  /** The message, the sender's window and the receiver's window. */
  datatype Config = Config(msg: seq<byte>, ws: nat, wr: nat)

  ghost predicate ConfigOk(c: Config) {
    1 <= c.ws <= MAX_WINDOW_SIZE && 1 <= c.wr <= MAX_WINDOW_SIZE && |c.msg| < 0x8000_0000
  }

  /** Where the sender is: at the loop test, at the poll inside the loop, or past terminateSender. */
  datatype Phase = AtTest | AtPoll | Ended

  datatype Action =
    | SendMore              // loop test passed, then send if the window has room
    | PollAck(i: nat)       // the i-th ACK in flight arrives
    | PollNothing           // nothing arrives, timer still running
    | PollTimeout           // nothing arrives, timer expired now or at some time since the window last slid
    | Deliver(i: nat)       // the i-th data packet in flight reaches the receiver
    | LoseData(i: nat)
    | CopyData(i: nat)
    | LoseAck(i: nat)
    | CopyAck(i: nat)
    | SendEnd               // loop test failed, END sent
    | DeliverEnd
    | GiveUp                // the receiver's ten-second timer expired

  /** A data channel that keeps order: only the oldest packet is delivered, none is copied. ACKs may still be
      lost, copied and reordered, and data lost. */
  ghost predicate InOrder(acts: seq<Action>) {
    forall i :: 0 <= i < |acts| ==> !acts[i].CopyData? && (acts[i].Deliver? ==> acts[i].i == 0)
  }

  /** A network whose only fault is to lose ACKs. */
  ghost predicate LosesOnlyAcks(acts: seq<Action>) {
    forall i :: 0 <= i < |acts| ==>
      && !acts[i].LoseData? && !acts[i].CopyData? && !acts[i].CopyAck?
      && (acts[i].Deliver? || acts[i].PollAck? ==> acts[i].i == 0)
  }

  /** A network without faults: both channels keep order, and nothing is lost or copied. */
  ghost predicate Faultless(acts: seq<Action>) {
    LosesOnlyAcks(acts) && forall i :: 0 <= i < |acts| ==> !acts[i].LoseAck?
  }

  /** A network that neither loses nor copies, but may deliver in any order. */
  ghost predicate OnlyReorders(acts: seq<Action>) {
    forall i :: 0 <= i < |acts| ==>
      !acts[i].LoseData? && !acts[i].CopyData? && !acts[i].LoseAck? && !acts[i].CopyAck?
  }
}
