/** Header fields, packets and the actions that rewrite them. */
module Packets {

  // A field value as the set of its one bits.  128 bits hold the widest match field, an IPv6
  // address.  Bitwise and is set intersection; the number 0 is {}.
  type Bit = b: nat | b < 128
  type Word = set<Bit>

  function Xor(a: Word, b: Word): (r: Word) {
    (a - b) + (b - a)
  }

  // The bits lo..hi-1, as in 2^hi - 2^lo.
  function BitRange(lo: nat, hi: nat): (w: Word)
    requires lo <= hi <= 128
    ensures forall b: Bit :: b in w <==> lo <= b < hi
    decreases hi - lo
  {
    if lo == hi then {} else {lo as Bit} + BitRange(lo + 1, hi)
  }

  datatype Field =
    | InPort | EthSrc | EthDst | EthType | VlanVid | VlanPcp | EncapVid | Metadata
    | Header(name: string)

  // A packet carries some of the fields; a field it lacks never matches.
  type Packet = map<Field, Word>

  type PortNo = Word
  type GroupId = nat
  type TableId = nat

  const VID_PRESENT: Word := {12}                       // 0x1000
  const OFPP_IN_PORT: PortNo := BitRange(3, 32)         // 0xfffffff8
  const METADATA_ALL: Word := BitRange(0, 64)           // 0xffffffffffffffff

  datatype Action =
    | Output(port: PortNo)
    | SetField(key: Field, value: Word)
    | PushVlan
    | PopVlan
    | Group(id: GroupId)
    | OtherAction

  datatype Instruction =
    | GotoTable(tableId: TableId)
    | ApplyActions(actions: seq<Action>)
    | WriteMetadata(metadata: Word, mask: Word)
    | OtherInstruction(kind: nat)

  datatype Option<+T> = None | Some(value: T)

  datatype Result<+T> = Ok(value: T) | Raised

  type Buckets = seq<seq<Action>>
  type Groups = map<GroupId, Buckets>

  predicate Tagged(vid: Word) {
    vid * VID_PRESENT != {}
  }
}
