/** The answers of the server against the acknowledgements that the client waits for. */
module ChatProtocol {
  import opened Wrappers
  import opened Frame
  import opened ChatState
  import opened ChatConduct
  import Retransmit
  import ClientRuns = RetransmitRuns

  /** The message types that a packet can carry; a chat keeps the one of the request. */
  function KindsOf(p: Packet): set<UInt32> {
    match p
    case LoginOk(_, _, _, _, _, _) => {LOGIN_MSG_ACK}
    case LoginRefused(_, _, _) => {LOGIN_MSG_ACK}
    case RegOk(_, _, _) => {REG_MSG_ACK}
    case RegEcho(_) => {REG_MSG}
    case GroupCreated(_, _) => {CREATE_GROUP_MSG_ACK}
    case GroupJoined(_, _) => {ADD_GROUP_MSG_ACK}
    case ChatMsg(_, _, _) => {ONE_CHAT_MSG, GROUP_CHAT_MSG}
    case Ack(_, _) => {ACK_MSG}
  }

  /** Of all that the server sends, the client takes everything for an acknowledgement but the echo of a
      refused registration and the two group answers. */
  lemma AcknowledgingKinds(p: Packet, kind: UInt32)
    requires kind in KindsOf(p)
    ensures Retransmit.Acknowledges(kind) <==> !p.RegEcho? && !p.GroupCreated? && !p.GroupJoined?
  {
  }

  /** A request that is not a published chat is answered by a packet to its sender, with its id, that the
      client takes for an acknowledgement. Once that has arrived, no copy of the request is sent, unless the
      id is registered again. */
  lemma AnsweredIsNotResent(s: State, e: Event, w: ClientRuns.World, id: UInt32, run: seq<ClientRuns.Event>)
    requires IsRequest(e) && !Published(s, e) && e.msgId == id
    requires ClientRuns.Inv(w) && id in w.pending && ClientRuns.Feasible(ClientRuns.Step(w, ClientRuns.Ack(id)), run)
    ensures var out := Step(s, e).out;
            exists i :: |s.out| <= i < |out| && out[i] == Ack(e.conn, id)
                        && forall kind | kind in KindsOf(out[i]) :: Retransmit.Acknowledges(kind)
    ensures var v := ClientRuns.Run(ClientRuns.Step(w, ClientRuns.Ack(id)), run);
            var n := w.pending[id].regNo;
            ClientRuns.Count(v.sent, n) == ClientRuns.Count(w.sent, n)
  {
    var more := AnswerTo(s, e);
    var out := Step(s, e).out;
    assert out[|s.out| + |more|] == Ack(e.conn, id);
    hide Step;
    ClientRuns.NoCopyAfterAck(w, id, run);
  }

  /** A published chat is answered by nothing at all, so that its sender goes on until it gives up. */
  lemma PublishedIsNotAnswered(s: State, e: Event)
    requires Published(s, e)
    ensures Step(s, e).out == s.out
  {
  }
}
