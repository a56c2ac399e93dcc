/** Values, messages and records shared by every role
    (paxos/include/libpaxos_messages.h, paxos/include/paxos.h). */
module PaxosTypes {

  newtype byte = x: int | 0 <= x < 256

  /** A client value. `value_size` of the wire format is its length. */
  type Value = seq<byte>

  datatype Option<+T> = None | Some(value: T)

  const MAX_N_OF_PROPOSERS: nat := 10

  /** What an acceptor stores for one instance. The same layout is the accept
      acknowledgement, and a prepare acknowledgement is a copy without `isFinal`. */
  datatype Record = Record(
    acceptor: nat, iid: nat, ballot: nat, valueBallot: nat, isFinal: bool, value: Value)

  /** What an acceptor can be asked. */
  datatype Request =
    | PrepareReq(iid: nat, ballot: nat)
    | AcceptReq(iid: nat, ballot: nat, value: Value)
    | RepeatReq(iid: nat)

  datatype Msg =
    | Ask(req: Request)
    | PrepareAck(rec: Record)
    | AcceptAck(rec: Record)
}
