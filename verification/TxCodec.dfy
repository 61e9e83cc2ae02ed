/** The codec of block bodies: a version, a count, the lengths of all transactions, then their bytes. */
module TxCodec {

  import opened Bytes
  import opened Collections

  const CODEC_VERSION: u16 := 1
  const TWO16: nat := 0x1_0000

  /** `Panic` stands for a slice out of range. */
  datatype Result<T> = Ok(value: T) | Err | Panic

  function Low16(x: nat): u16 { x % TWO16 }

  // ----- Encoding

  function Lengths<T>(txs: seq<T>, marshal: T -> seq<byte>): (b: seq<byte>)
    ensures |b| == 2 * |txs|
  {
    if txs == [] then [] else Lengths(txs[..|txs| - 1], marshal) + Be16(Low16(|marshal(txs[|txs| - 1])|))
  }

  function Bodies<T>(txs: seq<T>, marshal: T -> seq<byte>): seq<byte> {
    if txs == [] then [] else Bodies(txs[..|txs| - 1], marshal) + marshal(txs[|txs| - 1])
  }

  function Header(count: nat): (b: seq<byte>)
    ensures |b| == 4
  {
    Be16(CODEC_VERSION) + Be16(Low16(count))
  }

  function Encode<T>(txs: seq<T>, marshal: T -> seq<byte>): seq<byte> {
    Header(|txs|) + Lengths(txs, marshal) + Bodies(txs, marshal)
  }

  method EncodeBlockTransactions<T>(txs: seq<T>, marshal: T -> seq<byte>) returns (data: seq<byte>)
    ensures data == Encode(txs, marshal)
  {
    data := Be16(CODEC_VERSION);
    data := data + Be16(Low16(|txs|));
    var bodies: seq<byte> := [];
    ghost var head := data;
    var i := 0;
    while i < |txs|
      invariant 0 <= i <= |txs|
      invariant data == head + Lengths(txs[..i], marshal) && bodies == Bodies(txs[..i], marshal)
    {
      assert txs[..i + 1][..i] == txs[..i];
      var tx := marshal(txs[i]);
      data := data + Be16(Low16(|tx|));
      bodies := bodies + tx;
      i := i + 1;
    }
    assert txs[..i] == txs;
    data := data + bodies;
  }

  // ----- Decoding

  function Prepend<T>(txs: seq<T>, r: Result<seq<T>>): Result<seq<T>> {
    if r.Ok? then Ok(txs + r.value) else r
  }

  /** Reads the transactions from index `i` on; `lens` are the bytes of all lengths. */
  function ReadTxs<T>(lens: seq<byte>, rest: seq<byte>, n: nat, i: nat, unmarshal: seq<byte> -> Option<T>): Result<seq<T>>
    requires i <= n
    decreases n - i
  {
    if i == n then Ok([])
    else if 2 * (i + 1) > |lens| then Panic
    else
      var size := FromBe16(lens[2 * i..2 * (i + 1)]);
      if |rest| < size then Err
      else match unmarshal(rest[..size])
        case None => Err
        case Some(tx) => Prepend([tx], ReadTxs(lens, rest[size..], n, i + 1, unmarshal))
  }

  /** The count of a body with a good header, and its lengths and bodies; the size of the lengths is computed in
      16 bits. */
  datatype Opened = Opened(count: u16, lens: seq<byte>, rest: seq<byte>)

  function Open(data: seq<byte>): Result<Opened> {
    if |data| < 4 then Err
    else if FromBe16(data[..2]) != CODEC_VERSION then Err
    else
      var n := FromBe16(data[2..4]);
      if |data| < 4 + Low16(n * 2) then Err
      else Ok(Opened(n, data[4..4 + Low16(n * 2)], data[4 + Low16(n * 2)..]))
  }

  function Decode<T>(data: seq<byte>, unmarshal: seq<byte> -> Option<T>): Result<seq<T>> {
    match Open(data)
    case Err => Err
    case Panic => Panic
    case Ok(o) => ReadTxs(o.lens, o.rest, o.count, 0, unmarshal)
  }

  method OpenBody(data: seq<byte>) returns (o: Result<Opened>)
    ensures o == Open(data)
  {
    if |data| == 0 { return Err; }
    if |data| < 2 { return Err; }
    var version := FromBe16(data[..2]);
    if version != CODEC_VERSION { return Err; }
    if |data| < 4 { return Err; }
    var n: nat := FromBe16(data[2..4]);
    var size: nat := Low16(n * 2);
    if |data| < 4 + size { return Err; }
    return Ok(Opened(n, data[4..4 + size], data[4 + size..]));
  }

  lemma PrependNone<T>(r: Result<seq<T>>)
    ensures Prepend([], r) == r
  {
    if r.Ok? { assert [] + r.value == r.value; }
  }

  lemma PrependTwice<T>(xs: seq<T>, ys: seq<T>, r: Result<seq<T>>)
    ensures Prepend(xs, Prepend(ys, r)) == Prepend(xs + ys, r)
  {
    if r.Ok? { assert xs + (ys + r.value) == (xs + ys) + r.value; }
  }

  method DecodeBlockTransactions<T>(data: seq<byte>, unmarshal: seq<byte> -> Option<T>) returns (r: Result<seq<T>>)
    ensures r == Decode(data, unmarshal)
  {
    var body := OpenBody(data);
    if body.Err? { return Err; }
    if body.Panic? { return Panic; }
    var n, lens, rest := body.value.count, body.value.lens, body.value.rest;
    var txs: seq<T> := [];
    PrependNone(ReadTxs(lens, rest, n, 0, unmarshal));
    var i := 0;
    while i < n
      invariant 0 <= i <= n
      invariant Decode(data, unmarshal) == Prepend(txs, ReadTxs(lens, rest, n, i, unmarshal))
    {
      if 2 * (i + 1) > |lens| { return Panic; }
      var size := FromBe16(lens[2 * i..2 * (i + 1)]);
      if |rest| < size { return Err; }
      var tx := unmarshal(rest[..size]);
      if tx.None? { return Err; }
      PrependTwice(txs, [tx.value], ReadTxs(lens, rest[size..], n, i + 1, unmarshal));
      txs := txs + [tx.value];
      rest := rest[size..];
      i := i + 1;
    }
    assert txs + [] == txs;
    return Ok(txs);
  }

  /** The transaction at index `idx`, read without unmarshalling those before it. */
  function ReadTx<T>(lens: seq<byte>, rest: seq<byte>, n: nat, i: nat, idx: nat, unmarshal: seq<byte> -> Option<T>): Result<T>
    requires i <= n
    decreases n - i
  {
    if i == n then Err
    else if 2 * (i + 1) > |lens| then Panic
    else
      var size := FromBe16(lens[2 * i..2 * (i + 1)]);
      if |rest| < size then Err
      else if i == idx then match unmarshal(rest[..size]) { case None => Err case Some(tx) => Ok(tx) }
      else ReadTx(lens, rest[size..], n, i + 1, idx, unmarshal)
  }

  method DecodeTransaction<T>(idx: nat, data: seq<byte>, unmarshal: seq<byte> -> Option<T>) returns (r: Result<T>)
    ensures r == match Open(data)
                 case Err => Err
                 case Panic => Panic
                 case Ok(o) => ReadTx(o.lens, o.rest, o.count, 0, idx, unmarshal)
  {
    var body := OpenBody(data);
    if body.Err? { return Err; }
    if body.Panic? { return Panic; }
    var n, lens, rest := body.value.count, body.value.lens, body.value.rest;
    ghost var all := rest;
    var i := 0;
    while i < n
      invariant 0 <= i <= n
      invariant ReadTx(lens, all, n, 0, idx, unmarshal) == ReadTx(lens, rest, n, i, idx, unmarshal)
    {
      if 2 * (i + 1) > |lens| { return Panic; }
      var size := FromBe16(lens[2 * i..2 * (i + 1)]);
      if |rest| < size { return Err; }
      if idx == i {
        var tx := unmarshal(rest[..size]);
        if tx.None? { return Err; }
        return Ok(tx.value);
      }
      rest := rest[size..];
      i := i + 1;
    }
    return Err;
  }

  // ----- Round trips

  ghost predicate Inverts<T(!new)>(marshal: T -> seq<byte>, unmarshal: seq<byte> -> Option<T>) {
    forall t {:trigger marshal(t)} :: unmarshal(marshal(t)) == Some(t)
  }

  predicate AllShort<T>(txs: seq<T>, marshal: T -> seq<byte>) {
    forall i {:trigger txs[i]} :: 0 <= i < |txs| ==> |marshal(txs[i])| < TWO16
  }

  lemma {:induction false} LengthAt<T>(txs: seq<T>, marshal: T -> seq<byte>, i: nat)
    requires i < |txs|
    ensures Lengths(txs, marshal)[2 * i..2 * (i + 1)] == Be16(Low16(|marshal(txs[i])|))
    decreases |txs|
  {
    var k := |txs| - 1;
    if i < k {
      LengthAt(txs[..k], marshal, i);
      assert Lengths(txs, marshal)[2 * i..2 * (i + 1)] == Lengths(txs[..k], marshal)[2 * i..2 * (i + 1)];
    }
  }

  lemma {:induction false} BodiesFrom<T>(txs: seq<T>, marshal: T -> seq<byte>)
    requires txs != []
    ensures Bodies(txs, marshal) == marshal(txs[0]) + Bodies(txs[1..], marshal)
    decreases |txs|
  {
    var k := |txs| - 1;
    if k > 0 {
      BodiesFrom(txs[..k], marshal);
      assert txs[..k][1..] == txs[1..][..k - 1];
      assert txs[1..][k - 1] == txs[k];
    } else {
      assert txs[..0] == [] && txs[1..] == [];
    }
  }

  lemma SizeAt<T>(txs: seq<T>, marshal: T -> seq<byte>, i: nat)
    requires i < |txs| && |marshal(txs[i])| < TWO16
    ensures FromBe16(Lengths(txs, marshal)[2 * i..2 * (i + 1)]) == |marshal(txs[i])|
  {
    LengthAt(txs, marshal, i);
    Be16Inverse(Low16(|marshal(txs[i])|));
  }

  lemma NextBody<T>(txs: seq<T>, marshal: T -> seq<byte>, i: nat)
    requires i < |txs|
    ensures var b := Bodies(txs[i..], marshal); var m := |marshal(txs[i])|;
            |b| >= m && b[..m] == marshal(txs[i]) && b[m..] == Bodies(txs[i + 1..], marshal)
  {
    BodiesFrom(txs[i..], marshal);
    assert txs[i..][1..] == txs[i + 1..];
  }

  lemma {:induction false} ReadBack<T(!new)>(
      txs: seq<T>, marshal: T -> seq<byte>, unmarshal: seq<byte> -> Option<T>, i: nat)
    requires Inverts(marshal, unmarshal) && AllShort(txs, marshal) && i <= |txs|
    ensures ReadTxs(Lengths(txs, marshal), Bodies(txs[i..], marshal), |txs|, i, unmarshal) == Ok(txs[i..])
    decreases |txs| - i
  {
    if i < |txs| {
      SizeAt(txs, marshal, i);
      NextBody(txs, marshal, i);
      ReadBack(txs, marshal, unmarshal, i + 1);
      assert unmarshal(marshal(txs[i])) == Some(txs[i]);
      assert [txs[i]] + txs[i + 1..] == txs[i..];
    }
  }

  lemma {:induction false} ReadBackOne<T(!new)>(
      txs: seq<T>, marshal: T -> seq<byte>, unmarshal: seq<byte> -> Option<T>, i: nat, idx: nat)
    requires Inverts(marshal, unmarshal) && AllShort(txs, marshal) && i <= |txs| && (i <= idx || i == |txs|)
    ensures ReadTx(Lengths(txs, marshal), Bodies(txs[i..], marshal), |txs|, i, idx, unmarshal)
            == if idx < |txs| && i < |txs| then Ok(txs[idx]) else Err
    decreases |txs| - i
  {
    if i < |txs| {
      SizeAt(txs, marshal, i);
      NextBody(txs, marshal, i);
      assert unmarshal(marshal(txs[i])) == Some(txs[i]);
      if i != idx { ReadBackOne(txs, marshal, unmarshal, i + 1, idx); }
    }
  }

  lemma HeaderRead(count: nat, tail: seq<byte>, data: seq<byte>)
    requires data == Header(count) + tail
    ensures |data| >= 4 && FromBe16(data[..2]) == CODEC_VERSION && FromBe16(data[2..4]) == Low16(count)
    ensures data[4..] == tail
  {
    assert data[..2] == Be16(CODEC_VERSION) && data[2..4] == Be16(Low16(count));
    Be16Inverse(CODEC_VERSION);
    Be16Inverse(Low16(count));
  }

  lemma SplitAt(a: seq<byte>, b: seq<byte>, data: seq<byte>)
    requires |data| >= 4 && data[4..] == a + b
    ensures |data| == 4 + |a| + |b| && data[4..4 + |a|] == a && data[4 + |a|..] == b
  {
    assert data[4..4 + |a|] == data[4..][..|a|] && data[4 + |a|..] == data[4..][|a|..];
  }

  lemma OpenIs(data: seq<byte>, n: u16, a: seq<byte>, b: seq<byte>)
    requires |data| >= 4 && FromBe16(data[..2]) == CODEC_VERSION && FromBe16(data[2..4]) == n
    requires |a| == 2 * n < TWO16 && data[4..] == a + b
    ensures Open(data) == Ok(Opened(n, a, b))
  {
    SplitAt(a, b, data);
  }

  lemma OpenParts(n: nat, a: seq<byte>, b: seq<byte>, data: seq<byte>)
    requires n < 32768 && |a| == 2 * n && data == Header(n) + (a + b)
    ensures Open(data) == Ok(Opened(n, a, b))
  {
    HeaderRead(n, a + b, data);
    OpenIs(data, n, a, b);
  }

  lemma OpenEncoded<T>(txs: seq<T>, marshal: T -> seq<byte>)
    requires |txs| < 32768
    ensures Open(Encode(txs, marshal)) == Ok(Opened(|txs|, Lengths(txs, marshal), Bodies(txs, marshal)))
  {
    var data, a, b := Encode(txs, marshal), Lengths(txs, marshal), Bodies(txs, marshal);
    assert data == Header(|txs|) + (a + b);
    OpenParts(|txs|, a, b, data);
  }

  lemma BodyRoundTrip<T(!new)>(txs: seq<T>, marshal: T -> seq<byte>, unmarshal: seq<byte> -> Option<T>)
    requires Inverts(marshal, unmarshal) && AllShort(txs, marshal) && |txs| < 32768
    ensures Decode(Encode(txs, marshal), unmarshal) == Ok(txs)
  {
    OpenEncoded(txs, marshal);
    ReadBack(txs, marshal, unmarshal, 0);
    assert txs[0..] == txs;
  }

  /** Reading one transaction of a body gives that element, and an error past the end. */
  lemma TxRoundTrip<T(!new)>(txs: seq<T>, marshal: T -> seq<byte>, unmarshal: seq<byte> -> Option<T>, idx: nat)
    requires Inverts(marshal, unmarshal) && AllShort(txs, marshal) && |txs| < 32768
    ensures Open(Encode(txs, marshal)).Ok?
    ensures var o := Open(Encode(txs, marshal)).value;
            ReadTx(o.lens, o.rest, o.count, 0, idx, unmarshal) == if idx < |txs| then Ok(txs[idx]) else Err
  {
    OpenEncoded(txs, marshal);
    ReadBackOne(txs, marshal, unmarshal, 0, idx);
    assert txs[0..] == txs;
  }

  lemma {:induction false} ReadTooMany<T>(lens: seq<byte>, rest: seq<byte>, n: nat, i: nat, unmarshal: seq<byte> -> Option<T>)
    requires i <= n && |lens| < 2 * n && 2 * i <= |lens|
    ensures !ReadTxs(lens, rest, n, i, unmarshal).Ok?
    decreases n - i
  {
    if 2 * (i + 1) <= |lens| {
      var size := FromBe16(lens[2 * i..2 * (i + 1)]);
      if size <= |rest| { ReadTooMany(lens, rest[size..], n, i + 1, unmarshal); }
    }
  }

  lemma {:induction false} ReadCount<T>(lens: seq<byte>, rest: seq<byte>, n: nat, i: nat, unmarshal: seq<byte> -> Option<T>)
    requires i <= n
    ensures ReadTxs(lens, rest, n, i, unmarshal).Ok? ==> |ReadTxs(lens, rest, n, i, unmarshal).value| == n - i
    decreases n - i
  {
    if i < n && 2 * (i + 1) <= |lens| {
      var size := FromBe16(lens[2 * i..2 * (i + 1)]);
      if size <= |rest| { ReadCount(lens, rest[size..], n, i + 1, unmarshal); }
    }
  }

  /** No part cut off the end of an encoding reads as the whole. */
  ghost predicate NeedsAllBytes<T(!new)>(marshal: T -> seq<byte>, unmarshal: seq<byte> -> Option<T>) {
    forall t, k: nat {:trigger marshal(t)[..k]} :: k < |marshal(t)| ==> unmarshal(marshal(t)[..k]) != Some(t)
  }

  lemma ReadLong<T(!new)>(txs: seq<T>, marshal: T -> seq<byte>, unmarshal: seq<byte> -> Option<T>, i: nat)
    requires NeedsAllBytes(marshal, unmarshal) && i < |txs| && |marshal(txs[i])| >= TWO16
    ensures ReadTxs(Lengths(txs, marshal), Bodies(txs[i..], marshal), |txs|, i, unmarshal) != Ok(txs[i..])
  {
    var size, rest := Low16(|marshal(txs[i])|), Bodies(txs[i..], marshal);
    LengthAt(txs, marshal, i);
    Be16Inverse(size);
    NextBody(txs, marshal, i);
    assert rest[..size] == marshal(txs[i])[..size];
    assert txs[i..][0] == txs[i];
  }

  lemma PrependApart<T>(x: T, r: Result<seq<T>>, all: seq<T>)
    requires all != [] && r != Ok(all[1..])
    ensures Prepend([x], r) != Ok(all)
  {
    assert r.Ok? ==> ([x] + r.value)[1..] == r.value;
  }

  /** Up to the first long transaction `j` all is read well; that one is cut short. */
  lemma {:induction false} ReadUpToLong<T(!new)>(
      txs: seq<T>, marshal: T -> seq<byte>, unmarshal: seq<byte> -> Option<T>, i: nat, j: nat)
    requires Inverts(marshal, unmarshal) && NeedsAllBytes(marshal, unmarshal) && i <= j < |txs|
    requires |marshal(txs[j])| >= TWO16 && forall k {:trigger txs[k]} :: 0 <= k < j ==> |marshal(txs[k])| < TWO16
    ensures ReadTxs(Lengths(txs, marshal), Bodies(txs[i..], marshal), |txs|, i, unmarshal) != Ok(txs[i..])
    decreases j - i
  {
    if i == j {
      ReadLong(txs, marshal, unmarshal, i);
    } else {
      SizeAt(txs, marshal, i);
      NextBody(txs, marshal, i);
      ReadUpToLong(txs, marshal, unmarshal, i + 1, j);
      assert unmarshal(marshal(txs[i])) == Some(txs[i]);
      PrependApart(txs[i], ReadTxs(Lengths(txs, marshal), Bodies(txs[i + 1..], marshal), |txs|, i + 1, unmarshal), txs[i..]);
    }
  }

  lemma {:induction false} FirstLong<T>(txs: seq<T>, marshal: T -> seq<byte>) returns (j: nat)
    requires !AllShort(txs, marshal)
    ensures j < |txs| && |marshal(txs[j])| >= TWO16
    ensures forall k {:trigger txs[k]} :: 0 <= k < j ==> |marshal(txs[k])| < TWO16
    decreases |txs|
  {
    var n := |txs| - 1;
    if AllShort(txs[..n], marshal) {
      assert forall k {:trigger txs[k]} :: 0 <= k < n ==> txs[k] == txs[..n][k];
      return n;
    }
    j := FirstLong(txs[..n], marshal);
    assert forall k {:trigger txs[k]} :: 0 <= k <= j ==> txs[k] == txs[..n][k];
  }

  lemma LongFails<T(!new)>(txs: seq<T>, marshal: T -> seq<byte>, unmarshal: seq<byte> -> Option<T>)
    requires Inverts(marshal, unmarshal) && NeedsAllBytes(marshal, unmarshal)
    requires |txs| < 32768 && !AllShort(txs, marshal)
    ensures Decode(Encode(txs, marshal), unmarshal) != Ok(txs)
  {
    OpenEncoded(txs, marshal);
    var j := FirstLong(txs, marshal);
    ReadUpToLong(txs, marshal, unmarshal, 0, j);
    assert txs[0..] == txs;
  }

  lemma ManyFails<T(!new)>(txs: seq<T>, marshal: T -> seq<byte>, unmarshal: seq<byte> -> Option<T>)
    requires |txs| >= 32768
    ensures Decode(Encode(txs, marshal), unmarshal) != Ok(txs)
  {
    var data := Encode(txs, marshal);
    assert data == Header(|txs|) + (Lengths(txs, marshal) + Bodies(txs, marshal));
    HeaderRead(|txs|, Lengths(txs, marshal) + Bodies(txs, marshal), data);
    var o := Open(data);
    if o.Ok? {
      ReadCount(o.value.lens, o.value.rest, o.value.count, 0, unmarshal);
      if o.value.count >= 32768 { ReadTooMany(o.value.lens, o.value.rest, o.value.count, 0, unmarshal); }
    }
  }

  /** An encoded body on the wire: version 1 and the number of transactions, then the length of each, all in two bytes with
      the most significant first and cut to 16 bits, then the transactions. */
  lemma BodyBytes<T>(txs: seq<T>, marshal: T -> seq<byte>)
    ensures var data: seq<nat> := Encode(txs, marshal);
            && |data| == 4 + 2 * |txs| + |Bodies(txs, marshal)|
            && data[0] == 0 && data[1] == 1 && data[2] * 256 + data[3] == |txs| % 65536
            && forall i {:trigger txs[i]} :: 0 <= i < |txs| ==>
                 data[4 + 2 * i] * 256 + data[5 + 2 * i] == |marshal(txs[i])| % 65536
  {
    forall i | 0 <= i < |txs|
      ensures var data: seq<nat> := Encode(txs, marshal);
              data[4 + 2 * i] * 256 + data[5 + 2 * i] == |marshal(txs[i])| % 65536
    {
      LengthByte(txs, marshal, i);
    }
  }

  lemma LengthByte<T>(txs: seq<T>, marshal: T -> seq<byte>, i: nat)
    requires i < |txs|
    ensures var data: seq<nat> := Encode(txs, marshal);
            data[4 + 2 * i] * 256 + data[5 + 2 * i] == |marshal(txs[i])| % 65536
  {
    LengthAt(txs, marshal, i);
    assert Encode(txs, marshal)[4 + 2 * i..6 + 2 * i] == Lengths(txs, marshal)[2 * i..2 * i + 2];
  }

  /** A body decodes to itself if and only if it has fewer than 32768 transactions and each has fewer than 65536 bytes:
      from there on the 16-bit size of the lengths, the 16-bit count or a 16-bit length wraps. */
  lemma RoundTripExactly<T(!new)>(txs: seq<T>, marshal: T -> seq<byte>, unmarshal: seq<byte> -> Option<T>)
    requires Inverts(marshal, unmarshal) && NeedsAllBytes(marshal, unmarshal)
    ensures Decode(Encode(txs, marshal), unmarshal) == Ok(txs) <==> |txs| < 32768 && AllShort(txs, marshal)
  {
    if |txs| >= 32768 {
      ManyFails(txs, marshal, unmarshal);
    } else if AllShort(txs, marshal) {
      BodyRoundTrip(txs, marshal, unmarshal);
    } else {
      LongFails(txs, marshal, unmarshal);
    }
  }
}
