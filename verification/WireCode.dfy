/**
  The classes that write and read the wire format (common/memory_writer.h, common/memory_reader.h), the server's
  encoders and its command decoder (server/src/mono_profiler_server.cpp) and the client's decoders
  (client/src/mono_profiler_client.cpp), proved against the format of module WireFormat.
 */
module WireCode {
  import opened ByteOrder
  import opened WireFormat
  import opened Words
  import opened Wrappers

  /** The loop of `strlen` on a string that is followed by a NUL. */
  method StringLength(s: Bytes) returns (length: nat)
    ensures length == |BeforeNul(s)|
  {
    BeforeNulIff(s);
    length := 0;
    while length < |s| && s[length] != 0
      invariant length <= |BeforeNul(s)|
    {
      length := length + 1;
    }
  }

  lemma Append4(s: Bytes, a: Bytes, b: Bytes, c: Bytes, d: Bytes)
    ensures s + a + b + c + d == s + (a + b + c + d)
  {
  }

  lemma Append2(s: Bytes, a: Bytes, b: Bytes)
    ensures s + a + b == s + (a + b)
  {
  }

  lemma OneMore<T>(encode: T -> Bytes, items: seq<T>, i: nat)
    requires i < |items|
    ensures EncodeMany(encode, items[..i + 1]) == EncodeMany(encode, items[..i]) + encode(items[i])
  {
    assert items[..i + 1][..i] == items[..i];
  }

  class MemoryWriter {
    var storage: Bytes

    constructor ()
      ensures storage == []
    {
      storage := [];
    }

    /** `write` of an n-byte number. */
    method WriteFixed(v: nat, n: nat)
      modifies this
      ensures storage == old(storage) + Fixed(v, n)
    {
      storage := storage + Fixed(v, n);
    }

    method WriteVarint(v: Word64)
      modifies this
      ensures storage == old(storage) + Varint(v)
    {
      if v < 0xfd {
        WriteFixed(v, 1);
        assert Fixed(v, 1) == [v];
      } else if v < 0xffff {
        WriteTagged(0xfd, v, 2);
      } else if v < 0xffff_ffff {
        WriteTagged(0xfe, v, 4);
      } else {
        WriteTagged(0xff, v, 8);
      }
    }

    method WriteTagged(tag: Byte, v: nat, n: nat)
      modifies this
      ensures storage == old(storage) + ([tag] + Fixed(v, n))
    {
      WriteFixed(tag, 1);
      WriteFixed(v, n);
      assert Fixed(tag, 1) == [tag];
      Append2(old(storage), [tag], Fixed(v, n));
    }

    method WriteString(s: Bytes)
      modifies this
      ensures storage == old(storage) + EncodeString(s)
    {
      var length := StringLength(s);
      BeforeNulIff(s);
      WriteVarint(Wrap(length));
      storage := storage + s[..length];
    }

    method WriteAddresses(addresses: seq<Word64>)
      modifies this
      ensures storage == old(storage) + EncodeMany(Varint, addresses)
    {
      var i := 0;
      while i < |addresses|
        invariant i <= |addresses| && storage == old(storage) + EncodeMany(Varint, addresses[..i])
      {
        Append2(old(storage), EncodeMany(Varint, addresses[..i]), Varint(addresses[i]));
        OneMore(Varint, addresses, i);
        WriteVarint(addresses[i]);
        i := i + 1;
      }
      assert addresses[..i] == addresses;
    }

    method WriteReference(r: Reference)
      modifies this
      ensures storage == old(storage) + EncodeReference(r)
    {
      WriteVarint(r.addr);
      WriteString(r.typeName);
      WriteVarint(Wrap(|r.parents|));
      WriteAddresses(r.parents);
      Append4(
        old(storage), Varint(r.addr), EncodeString(r.typeName), Varint(Wrap(|r.parents|)),
        EncodeMany(Varint, r.parents));
    }

    /** `report_free`. */
    method ReportFree(m: FreeMessage)
      modifies this
      ensures storage == EncodeFree(m)
    {
      storage := [];
      WriteNumbers(m.frame, 8, m.addr, 8, m.size, 4);
    }

    /** `report_alloc`. */
    method ReportAlloc(m: AllocMessage)
      modifies this
      ensures storage == EncodeAlloc(m)
    {
      storage := [];
      WriteNumbers(m.frame, 8, m.addr, 8, m.size, 4);
      WriteString(m.name);
      WriteString(m.callstack);
    }

    method WriteNumbers(a: nat, i: nat, b: nat, j: nat, c: nat, k: nat)
      requires storage == []
      modifies this
      ensures storage == Fixed(a, i) + Fixed(b, j) + Fixed(c, k)
    {
      WriteFixed(a, i);
      WriteFixed(b, j);
      WriteFixed(c, k);
    }

    /** The client's request for references. */
    method SendCommand(requestId: Word64, addresses: seq<Word64>)
      requires |addresses| < TWO_64
      modifies this
      ensures storage == EncodeCommand(requestId, addresses)
    {
      storage := [];
      WriteNumbers(requestId, 8, |addresses|, 8, 0, 0);
      assert storage == Fixed(requestId, 8) + Fixed(|addresses|, 8);
      WriteWords(addresses);
    }

    method WriteWords(words: seq<Word64>)
      modifies this
      ensures storage == old(storage) + EncodeMany(Word, words)
    {
      var i := 0;
      while i < |words|
        invariant i <= |words| && storage == old(storage) + EncodeMany(Word, words[..i])
      {
        OneMore(Word, words, i);
        Append2(old(storage), EncodeMany(Word, words[..i]), Fixed(words[i], 8));
        WriteFixed(words[i], 8);
        i := i + 1;
      }
      assert words[..i] == words;
    }

    /** `report_references`. */
    method ReportReferences(requestId: Word64, references: seq<Reference>)
      modifies this
      ensures storage == EncodeReferences(requestId, references)
    {
      storage := [];
      WriteHead(requestId, 8, Wrap(|references|));
      WriteList(references);
    }

    method WriteHead(requestId: nat, n: nat, count: Word64)
      requires storage == []
      modifies this
      ensures storage == Fixed(requestId, n) + Varint(count)
    {
      WriteFixed(requestId, n);
      assert storage == Fixed(requestId, n);
      WriteVarint(count);
    }

    method WriteList(references: seq<Reference>)
      modifies this
      ensures storage == old(storage) + EncodeMany(EncodeReference, references)
    {
      var i := 0;
      while i < |references|
        invariant i <= |references| && storage == old(storage) + EncodeMany(EncodeReference, references[..i])
      {
        OneMore(EncodeReference, references, i);
        Append2(
          old(storage), EncodeMany(EncodeReference, references[..i]), EncodeReference(references[i]));
        WriteReference(references[i]);
        i := i + 1;
      }
      assert references[..i] == references;
    }
  }

  lemma OneByte(b: Bytes)
    ensures b != [] ==> FromFixed(b[..1]) == b[0]
  {
    if b != [] {
      assert b[..1][1..] == [];
    }
  }

  /** However many words there are, `count` addresses are pushed, and those that could be read are right. */
  ghost predicate Pushed(addresses: seq<nat>, b: Bytes, count: nat) {
    && |addresses| == count
    && forall k | 0 <= k <= count && ParseMany(ParseWord, b, k).Some? ::
         addresses[..k] == ParseMany(ParseWord, b, k).value.value
  }

  lemma PushedMore(addresses: seq<nat>, b: Bytes, i: nat, a: nat)
    requires Pushed(addresses, b, i)
    requires var p := ParseMany(ParseWord, b, i + 1);
             p.Some? ==> addresses + [a] == p.value.value
    ensures Pushed(addresses + [a], b, i + 1)
  {
    forall k | 0 <= k <= i + 1 && ParseMany(ParseWord, b, k).Some?
      ensures (addresses + [a])[..k] == ParseMany(ParseWord, b, k).value.value
    {
      if k <= i {
        assert (addresses + [a])[..k] == addresses[..k];
      } else {
        assert (addresses + [a])[..k] == addresses + [a];
      }
    }
  }

  /** If n items can be read from b, they are `values` and `rest` is behind them. */
  ghost predicate Progress<T>(
      parse: Bytes -> Option<Parsed<T>>, b: Bytes, n: nat, values: seq<T>, rest: Bytes) {
    var p := ParseMany(parse, b, n);
    p.Some? ==> p.value == Parsed(values, rest)
  }

  lemma ProgressMore<T>(
      parse: Bytes -> Option<Parsed<T>>, b: Bytes, n: nat, values: seq<T>, rest: Bytes, value: T, rest': Bytes)
    requires Progress(parse, b, n, values, rest)
    requires parse(rest).Some? ==> parse(rest).value == Parsed(value, rest')
    ensures Progress(parse, b, n + 1, values + [value], rest')
  {
  }

  /** What the wrapped bounds check tests. */
  lemma BoundsCheck(pos: nat, length: nat, total: nat)
    requires pos <= total < TWO_64 && length < TWO_64
    ensures Wrap(pos + length) > total <==> total < pos + length < TWO_64
  {
  }

  /** Reading 8, 8 and 4 bytes is reading 20. */
  lemma Header(b: Bytes)
    ensures ParseFixed(b, 20).Some? <==> |b| >= 20
    ensures |b| >= 20 ==> ParseFixed(b, 20).value.rest == b[8..][8..][4..]
  {
  }

  class MemoryReader {
    const storage: Bytes
    var pos: nat

    constructor (storage: Bytes)
      ensures this.storage == storage && pos == 0
    {
      this.storage := storage;
      pos := 0;
    }

    /** The size of a vector fits 64 bits. */
    ghost predicate Valid()
      reads this
    {
      pos <= |storage| < TWO_64
    }

    ghost function Rest(): Bytes
      requires Valid()
      reads this
    {
      storage[pos..]
    }

    method ReadFixed(n: nat) returns (ok: bool, value: nat)
      requires Valid()
      modifies this
      ensures Valid()
      ensures match ParseFixed(old(Rest()), n)
              case Some(p) => ok && value == p.value && Rest() == p.rest
              case None => !ok && pos == old(pos)
    {
      if pos + n > |storage| {
        return false, 0;
      }
      value := FromFixed(storage[pos..pos + n]);
      assert storage[pos..][..n] == storage[pos..pos + n];
      pos := pos + n;
      ok := true;
    }

    method ReadVarint() returns (ok: bool, value: nat)
      requires Valid()
      modifies this
      ensures Valid()
      ensures match ParseVarint(old(Rest()))
              case Some(p) => ok && value == p.value && Rest() == p.rest
              case None => !ok
    {
      OneByte(Rest());
      ok, value := ReadFixed(1);
      if !ok || value < 0xfd {
        return;
      }
      if value == 0xfd {
        ok, value := ReadFixed(2);
      } else if value == 0xfe {
        ok, value := ReadFixed(4);
      } else {
        ok, value := ReadFixed(8);
      }
    }

    /**
      Parses a string or fails when the bytes end early; but `overrun` exactly when position plus length reaches 2^64,
      where the sum wraps and the code goes on to ask for a string of that length, which cannot succeed.
     */
    method ReadString() returns (ok: bool, s: Bytes, overrun: bool)
      requires Valid()
      modifies this
      ensures Valid()
      ensures overrun <==> Overruns(old(Rest()), |storage|)
      ensures match ParseString(old(Rest()))
              case Some(p) => ok && s == p.value && Rest() == p.rest
              case None => !ok
    {
      var length;
      s, overrun := [], false;
      ok, length := ReadVarint();
      if !ok {
        return;
      }
      ParsedVarintFits(old(Rest()));
      BoundsCheck(pos, length, |storage|);
      if Wrap(pos + length) > |storage| {
        return false, s, false;
      }
      if length > 0 {
        if pos + length >= TWO_64 {
          // `resize` throws.
          return false, s, true;
        }
        s := storage[pos..pos + length];
        pos := pos + length;
      }
    }

    /**
      The client's SRV_ALLOC case: the message is accepted exactly when all its fields can be read. It does not
      get to a verdict exactly when one of its strings overruns.
     */
    method ReadAlloc() returns (ok: bool, m: AllocMessage, overrun: bool)
      requires Valid()
      modifies this
      ensures Valid()
      ensures overrun <==> AllocOverruns(old(Rest()), |storage|)
      ensures match ParseAlloc(old(Rest()))
              case Some(p) => ok && m == p.value && Rest() == p.rest
              case None => !ok
    {
      Header(Rest());
      m := AllocMessage(0, 0, 0, [], []);
      overrun := false;
      var frame, addr, size, name, callstack;
      ok, frame := ReadFixed(8);
      if ok { ok, addr := ReadFixed(8); }
      if ok { ok, size := ReadFixed(4); }
      if ok { ok, name, overrun := ReadString(); }
      if ok { ok, callstack, overrun := ReadString(); }
      if ok { m := AllocMessage(frame, addr, size, name, callstack); }
    }

    /**
      The client's SRV_FREE case, which looks only at the first read: accepted exactly when the frame can be read. Only
      if all fields can be read are they what was sent.
     */
    method ReadFree() returns (ok: bool, m: FreeMessage)
      requires Valid()
      modifies this
      ensures Valid()
      ensures ok <==> |old(Rest())| >= 8
      ensures ok ==> m.frame == FromFixed(old(Rest())[..8])
      ensures ParseFree(old(Rest())).Some? ==> ok && m == ParseFree(old(Rest())).value.value
    {
      var frame;
      ok, frame := ReadFixed(8);
      var _, addr := ReadFixed(8);
      var _, size := ReadFixed(4);
      m := FreeMessage(frame, addr, size);
    }

    /** The server's command decoder, which does not look at failures. */
    method ReadCommand() returns (c: Command)
      requires Valid()
      modifies this
      ensures Valid()
      ensures var p := ParseCommand(old(Rest()));
              p.Some? ==> c == p.value.value && Rest() == p.value.rest
      ensures var id := ParseFixed(old(Rest()), 8);
              id.Some? ==>
                var count := ParseFixed(id.value.rest, 8);
                count.Some? ==>
                  c.requestId == id.value.value && Pushed(c.addresses, count.value.rest, count.value.value)
    {
      var _, id := ReadFixed(8);
      var _, count := ReadFixed(8);
      var addresses := ReadWords(count);
      c := Command(id, addresses);
    }

    method ReadWords(count: nat) returns (addresses: seq<nat>)
      requires Valid()
      modifies this
      ensures Valid() && Pushed(addresses, old(Rest()), count)
      ensures var p := ParseMany(ParseWord, old(Rest()), count);
              p.Some? ==> addresses == p.value.value && Rest() == p.value.rest
    {
      addresses := [];
      var i := 0;
      while i < count
        invariant i <= count && Valid() && Pushed(addresses, old(Rest()), i)
        invariant var p := ParseMany(ParseWord, old(Rest()), i);
                  p.Some? ==> addresses == p.value.value && Rest() == p.value.rest
      {
        var _, a := ReadFixed(8);
        PushedMore(addresses, old(Rest()), i, a);
        addresses := addresses + [a];
        i := i + 1;
      }
    }

    /** The inner loop of the client's SRV_REFERENCES case, which does not look at failures. */
    method ReadAddresses(count: nat) returns (addresses: seq<nat>)
      requires Valid()
      modifies this
      ensures Valid() && Progress(ParseVarint, old(Rest()), count, addresses, Rest())
    {
      addresses := [];
      var j := 0;
      while j < count
        invariant j <= count && Valid() && Progress(ParseVarint, old(Rest()), j, addresses, Rest())
      {
        ghost var rest := Rest();
        var _, a := ReadVarint();
        ProgressMore(ParseVarint, old(Rest()), j, addresses, rest, a, Rest());
        addresses := addresses + [a];
        j := j + 1;
      }
    }

    method ReadReference() returns (r: Received)
      requires Valid()
      modifies this
      ensures Valid()
      ensures var p := ParseReference(old(Rest()));
              p.Some? ==> r == p.value.value && Rest() == p.value.rest
    {
      var _, addr := ReadVarint();
      var _, typeName, _ := ReadString();
      var _, count := ReadVarint();
      var parents := ReadAddresses(count);
      r := Received(addr, typeName, parents);
    }

    /** The client's SRV_REFERENCES case: a well-formed message is decoded whole. */
    method ReadReferences() returns (ok: bool, answer: Answer)
      requires Valid()
      modifies this
      ensures Valid()
      ensures var p := ParseReferences(old(Rest()));
              p.Some? ==> ok && answer == p.value.value && Rest() == p.value.rest
    {
      answer := Answer(0, []);
      var id, count;
      ok, id := ReadFixed(8);
      if !ok {
        return;
      }
      ok, count := ReadVarint();
      if !ok {
        return;
      }
      var list := ReadList(count);
      answer := Answer(id, list);
    }

    method ReadList(count: nat) returns (list: seq<Received>)
      requires Valid()
      modifies this
      ensures Valid() && Progress(ParseReference, old(Rest()), count, list, Rest())
    {
      list := [];
      var i := 0;
      while i < count
        invariant i <= count && Valid() && Progress(ParseReference, old(Rest()), i, list, Rest())
      {
        list := ReadMore(old(Rest()), i, list);
        i := i + 1;
      }
    }

    /** One round of the outer loop. */
    method ReadMore(ghost b: Bytes, ghost i: nat, list: seq<Received>) returns (list': seq<Received>)
      requires Valid() && Progress(ParseReference, b, i, list, Rest())
      modifies this
      ensures Valid() && Progress(ParseReference, b, i + 1, list', Rest())
    {
      ghost var rest := Rest();
      var r := ReadReference();
      ghost var p := ParseReference(rest);
      assert p.Some? ==> p.value == Parsed(r, Rest());
      ProgressMore(ParseReference, b, i, list, rest, r, Rest());
      list' := list + [r];
    }
  }

  /** Server to client: what `report_references` sends, the client's decoder returns, and it reads the whole message. */
  method Deliver(requestId: Word64, references: seq<Reference>) returns (answer: Answer)
    requires AllSendable(references)
    requires |EncodeReferences(requestId, references)| < TWO_64
    ensures answer == Answer(requestId, AllReceived(references))
  {
    var writer := new MemoryWriter();
    writer.ReportReferences(requestId, references);
    var reader := new MemoryReader(writer.storage);
    ReferencesRoundTrip(requestId, references, []);
    assert writer.storage + [] == writer.storage;
    var ok;
    ok, answer := reader.ReadReferences();
  }
}
