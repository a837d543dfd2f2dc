/** `decode-txs`: unpacking a batch that travels as one byte buffer plus a list of lengths. The ABI
    decoding itself belongs to another library; its result is the input here. */
module BatchDecoding {
  import opened Common
  import opened Hex

  /** The destination is undefined when the batch lists fewer destinations than lengths. */
  datatype RawTransaction = RawTransaction(destination: Option<string>, value: string, data: string)

  /** The decoded inputs: of `executeMetaTransaction`, of `executeTransactions`, or of another method
      with some number of inputs. */
  datatype Inputs =
    | MetaInputs(destination: string, value: string, data: seq<Byte>)
    | BatchInputs(destinations: seq<string>, values: seq<string>, buffer: seq<Byte>, lengths: seq<nat>)
    | OtherInputs(count: nat)

  /** What the ABI decoder yields; the method is None when it does not know the selector. */
  datatype DecoderResult = DecoderThrew | Known(methodName: Option<string>, inputs: Inputs)

  /** A named wallet method with the right number of inputs comes with the inputs of that method. */
  predicate AbiShaped(d: DecoderResult) {
    d.Known? ==>
      && (d.methodName == Some("executeMetaTransaction") && InputCount(d.inputs) == 6 ==> d.inputs.MetaInputs?)
      && (d.methodName == Some("executeTransactions") && InputCount(d.inputs) == 4 ==> d.inputs.BatchInputs?)
  }

  type Decoded = d: DecoderResult | AbiShaped(d) witness DecoderThrew

  function InputCount(inputs: Inputs): nat {
    match inputs
    case MetaInputs(_, _, _) => 6
    case BatchInputs(_, _, _, _) => 4
    case OtherInputs(n) => n
  }

  /** Buffer.slice: bounds beyond the end are clamped. */
  function Slice(buffer: seq<Byte>, from: nat, to: nat): seq<Byte>
    requires from <= to
  {
    var lo := if from <= |buffer| then from else |buffer|;
    var hi := if to <= |buffer| then to else |buffer|;
    buffer[lo..hi]
  }

  /** The data of one batch entry, at its place in the buffer. */
  function EntryData(buffer: seq<Byte>, offset: nat, length: nat): string {
    if length == 0 then "" else ToHex(Slice(buffer, offset, offset + length))
  }

  function Offset(lengths: seq<nat>, idx: nat): nat
    requires idx <= |lengths|
  {
    if idx == 0 then 0 else Offset(lengths, idx - 1) + lengths[idx - 1]
  }

  function Entry(batch: Inputs, idx: nat): RawTransaction
    requires batch.BatchInputs? && idx < |batch.lengths| && idx < |batch.values|
  {
    RawTransaction(
      if idx < |batch.destinations| then Some(batch.destinations[idx]) else None,
      batch.values[idx],
      EntryData(batch.buffer, Offset(batch.lengths, idx), batch.lengths[idx]))
  }

  /** None: a value is missing, on which the source throws. */
  function Unpacked(batch: Inputs): Option<seq<RawTransaction>>
    requires batch.BatchInputs?
  {
    if |batch.values| < |batch.lengths| then None
    else Some(Entries(batch))
  }

  function Entries(batch: Inputs): (txs: seq<RawTransaction>)
    requires batch.BatchInputs? && |batch.lengths| <= |batch.values|
    ensures |txs| == |batch.lengths|
    ensures forall i :: 0 <= i < |txs| ==> txs[i] == Entry(batch, i)
  {
    seq(|batch.lengths|, i requires 0 <= i < |batch.lengths| => Entry(batch, i))
  }

  /** The offset loop of `decodeExecuteTransactions`. */
  method UnpackBatch(batch: Inputs) returns (txs: Option<seq<RawTransaction>>)
    requires batch.BatchInputs?
    ensures txs == Unpacked(batch)
  {
    var offset, idx := 0, 0;
    var done: seq<RawTransaction> := [];
    while idx < |batch.lengths|
      invariant 0 <= idx <= |batch.lengths| && idx <= |batch.values|
      invariant offset == Offset(batch.lengths, idx)
      invariant |done| == idx && forall i :: 0 <= i < idx ==> done[i] == Entry(batch, i)
    {
      var dataLength := batch.lengths[idx];
      var data := "";
      if idx >= |batch.values| {
        return None;
      }
      ghost var before := offset;
      if dataLength != 0 {
        data := ToHex(Slice(batch.buffer, offset, offset + dataLength));
        offset := offset + dataLength;
      }
      assert data == EntryData(batch.buffer, before, dataLength);
      var destination := if idx < |batch.destinations| then Some(batch.destinations[idx]) else None;
      done := done + [RawTransaction(destination, batch.values[idx], data)];
      idx := idx + 1;
    }
    assert done == Entries(batch);
    return Some(done);
  }

  // ----- What unpacking yields, entry by entry

  ghost function Sum(lengths: seq<nat>): nat {
    if lengths == [] then 0 else lengths[0] + Sum(lengths[1..])
  }

  lemma {:induction false} SumSplits(a: seq<nat>, b: seq<nat>)
    ensures Sum(a + b) == Sum(a) + Sum(b)
  {
    if a == [] {
      assert a + b == b;
    } else {
      SumSplits(a[1..], b);
      assert (a + b)[1..] == a[1..] + b;
    }
  }

  lemma {:induction false} OffsetIsSum(lengths: seq<nat>, idx: nat)
    requires idx <= |lengths|
    ensures Offset(lengths, idx) == Sum(lengths[..idx])
  {
    if idx > 0 {
      OffsetIsSum(lengths, idx - 1);
      SumSplits(lengths[..idx - 1], [lengths[idx - 1]]);
      assert lengths[..idx] == lengths[..idx - 1] + [lengths[idx - 1]];
    }
  }

  /** The bytes of the buffer from a place on, as many as asked for or as there are. */
  ghost predicate BytesAt(buffer: seq<Byte>, from: nat, count: nat, bytes: seq<Byte>) {
    && |bytes| <= count
    && (|bytes| < count ==> from + |bytes| >= |buffer|)
    && forall k :: 0 <= k < |bytes| ==> from + k < |buffer| && bytes[k] == buffer[from + k]
  }

  lemma SliceIs(buffer: seq<Byte>, from: nat, count: nat)
    ensures BytesAt(buffer, from, count, Slice(buffer, from, from + count))
  {
  }

  /** The entry has the i-th value, the i-th destination if there is one, and the bytes of the buffer that
      follow those of the entries before it. */
  ghost predicate EntryIs(batch: Inputs, i: nat, tx: RawTransaction)
    requires batch.BatchInputs? && i < |batch.lengths| <= |batch.values|
  {
    && tx.value == batch.values[i]
    && tx.destination == (if i < |batch.destinations| then Some(batch.destinations[i]) else None)
    && exists bytes ::
         BytesAt(batch.buffer, Sum(batch.lengths[..i]), batch.lengths[i], bytes) && tx.data == ToHex(bytes)
  }

  lemma EntryExactly(batch: Inputs, i: nat)
    requires batch.BatchInputs? && i < |batch.lengths| <= |batch.values|
    ensures EntryIs(batch, i, Entry(batch, i))
  {
    OffsetIsSum(batch.lengths, i);
    var from, count := Sum(batch.lengths[..i]), batch.lengths[i];
    SliceIs(batch.buffer, from, count);
    assert count == 0 ==> Slice(batch.buffer, from, from + count) == [];
  }

  /** Unpacking fails exactly when a value is missing, and otherwise yields the entries of the batch. */
  lemma UnpackedExactly(batch: Inputs)
    requires batch.BatchInputs?
    ensures Unpacked(batch).None? <==> |batch.values| < |batch.lengths|
    ensures var txs := Unpacked(batch);
      txs.Some? ==>
        && |txs.value| == |batch.lengths|
        && forall i :: 0 <= i < |batch.lengths| ==> EntryIs(batch, i, txs.value[i])
  {
    if |batch.lengths| <= |batch.values| {
      forall i | 0 <= i < |batch.lengths|
        ensures EntryIs(batch, i, Unpacked(batch).value[i])
      {
        EntryExactly(batch, i);
      }
    }
  }

  /** A child transaction before packing. */
  datatype Child = Child(destination: string, value: string, data: seq<Byte>)

  function Concat(children: seq<Child>): seq<Byte> {
    if children == [] then [] else Concat(children[..|children| - 1]) + children[|children| - 1].data
  }

  /** How a wallet client packs a batch. */
  function Pack(children: seq<Child>): Inputs {
    BatchInputs(
      seq(|children|, i requires 0 <= i < |children| => children[i].destination),
      seq(|children|, i requires 0 <= i < |children| => children[i].value),
      Concat(children),
      seq(|children|, i requires 0 <= i < |children| => |children[i].data|))
  }

  function AsRaw(c: Child): RawTransaction {
    RawTransaction(Some(c.destination), c.value, ToHex(c.data))
  }

  lemma {:induction false} OffsetIsPrefixLength(children: seq<Child>, idx: nat)
    requires idx <= |children|
    ensures Offset(Pack(children).lengths, idx) == |Concat(children[..idx])|
  {
    if idx == 0 {
    } else {
      OffsetIsPrefixLength(children, idx - 1);
      assert children[..idx][..idx - 1] == children[..idx - 1];
    }
  }

  /** The data of child idx sits in the buffer right after the data of the children before it. */
  lemma {:induction false} ConcatAt(children: seq<Child>, idx: nat)
    requires idx < |children|
    ensures var lo := |Concat(children[..idx])|;
      && lo + |children[idx].data| <= |Concat(children)|
      && Concat(children)[lo..lo + |children[idx].data|] == children[idx].data
    decreases |children|
  {
    var n := |children| - 1;
    if idx < n {
      var front := children[..n];
      ConcatAt(front, idx);
      assert front[..idx] == children[..idx];
      var lo := |Concat(children[..idx])|;
      assert Concat(children)[lo..lo + |children[idx].data|] == Concat(front)[lo..lo + |children[idx].data|];
    }
  }

  lemma EntryRoundTrip(children: seq<Child>, i: nat)
    requires i < |children|
    ensures Entry(Pack(children), i) == AsRaw(children[i])
  {
    OffsetIsPrefixLength(children, i);
    ConcatAt(children, i);
    var packed, lo := Pack(children), |Concat(children[..i])|;
    assert packed.lengths[i] == |children[i].data|;
    if children[i].data != [] {
      assert Slice(packed.buffer, lo, lo + |children[i].data|) == children[i].data;
    }
  }

  /** Batch round trip: unpacking a packed list returns the list, for every list, empty data
      included. */
  lemma BatchRoundTrip(children: seq<Child>)
    ensures Unpacked(Pack(children)).Some? && |Unpacked(Pack(children)).value| == |children|
    ensures forall i :: 0 <= i < |children| ==> Unpacked(Pack(children)).value[i] == AsRaw(children[i])
  {
    forall i | 0 <= i < |children|
      ensures Entry(Pack(children), i) == AsRaw(children[i])
    {
      EntryRoundTrip(children, i);
    }
  }

  /** The round trip loses nothing: two lists that unpack alike are equal. */
  lemma PackInjective(a: seq<Child>, b: seq<Child>)
    requires Unpacked(Pack(a)) == Unpacked(Pack(b))
    ensures a == b
  {
    BatchRoundTrip(a);
    BatchRoundTrip(b);
    var ra, rb := Unpacked(Pack(a)).value, Unpacked(Pack(b)).value;
    assert |ra| == |a| && |rb| == |b|;
    forall i | 0 <= i < |a|
      ensures a[i] == b[i]
    {
      assert ra[i] == AsRaw(a[i]) && rb[i] == AsRaw(b[i]);
      ToHexInjective(a[i].data, b[i].data);
    }
  }
}
