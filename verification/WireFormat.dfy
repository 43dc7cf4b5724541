/**
  The wire format between server and client as pure encoders and parsers (common/memory_writer.h,
  common/memory_reader.h, server/src/mono_profiler_server.cpp, client/src/mono_profiler_client.cpp), and the proof that
  parsing undoes encoding, uses exactly the encoded bytes and leaves what follows alone. Strings are bytes.
 */
module WireFormat {
  import opened ByteOrder
  import opened Words
  import opened Wrappers

  /** A parsed value and the bytes behind it. */
  datatype Parsed<+T> = Parsed(value: T, rest: Bytes)

  // ---- Fixed-width numbers, lowest byte first

  function ParseFixed(b: Bytes, n: nat): Option<Parsed<nat>> {
    if |b| < n then None else Some(Parsed(FromFixed(b[..n]), b[n..]))
  }

  lemma FixedRoundTrip(v: nat, n: nat, suffix: Bytes)
    requires v < Power256(n)
    ensures ParseFixed(Fixed(v, n) + suffix, n) == Some(Parsed(v, suffix))
  {
    FixedValue(v, n);
    assert (Fixed(v, n) + suffix)[..n] == Fixed(v, n);
  }

  // ---- Variable-length numbers

  function Varint(v: Word64): (b: Bytes)
    ensures b != []
  {
    if v < 0xfd then [v]
    else if v < 0xffff then [0xfd] + Fixed(v, 2)
    else if v < 0xffff_ffff then [0xfe] + Fixed(v, 4)
    else [0xff] + Fixed(v, 8)
  }

  function ParseVarint(b: Bytes): Option<Parsed<nat>> {
    if b == [] then None
    else if b[0] < 0xfd then Some(Parsed(b[0], b[1..]))
    else ParseFixed(b[1..], if b[0] == 0xfd then 2 else if b[0] == 0xfe then 4 else 8)
  }

  lemma VarintRoundTrip(v: Word64, suffix: Bytes)
    ensures ParseVarint(Varint(v) + suffix) == Some(Parsed(v, suffix))
  {
    Widths();
    var n := if v < 0xfd then 0 else if v < 0xffff then 2 else if v < 0xffff_ffff then 4 else 8;
    if n == 0 {
      assert ([v] + suffix)[1..] == suffix;
    } else {
      FixedRoundTrip(v, n, suffix);
      assert (Varint(v) + suffix)[1..] == Fixed(v, n) + suffix;
    }
  }

  lemma ParsedVarintFits(b: Bytes)
    requires ParseVarint(b).Some?
    ensures ParseVarint(b).value.value < TWO_64
  {
    Widths();
    if b[0] >= 0xfd {
      FromFixedBound(b[1..][..if b[0] == 0xfd then 2 else if b[0] == 0xfe then 4 else 8]);
    }
  }

  /** The width of what follows the first byte of a number. */
  function TagWidth(tag: Byte): nat {
    if tag < 0xfd then 0 else if tag == 0xfd then 2 else if tag == 0xfe then 4 else 8
  }

  /**
    What the bytes of a number are: the number itself if it is small enough for one byte; otherwise the tag of a width
    and the number in that width, lowest byte first, which is the first width in which the number is not the largest.
   */
  lemma VarintLayout(v: Word64)
    ensures var b := Varint(v);
            && |b| == 1 + TagWidth(b[0])
            && v == (if |b| == 1 then b[0] else FromFixed(b[1..]))
            && (|b| == 1 <==> v < 0xfd)
            && (|b| == 5 ==> v >= 0xffff) && (|b| == 9 ==> v >= 0xffff_ffff)
            && (|b| > 1 ==> v < Power256(|b| - 1) - 1 || |b| == 9)
  {
    Widths();
    if v >= 0xfd {
      var n := |Varint(v)| - 1;
      FixedValue(v, n);
      assert Varint(v)[1..] == Fixed(v, n);
    }
  }

  // ---- Strings

  /** The part of a string that `strlen` sees. */
  function BeforeNul(s: Bytes): (r: Bytes)
    ensures |r| <= |s|
  {
    if s == [] || s[0] == 0 then [] else [s[0]] + BeforeNul(s[1..])
  }

  predicate NulFree(s: Bytes) {
    forall i | 0 <= i < |s| :: s[i] != 0
  }

  lemma {:induction false} BeforeNulIff(s: Bytes)
    ensures BeforeNul(s) == s <==> NulFree(s)
    ensures NulFree(BeforeNul(s)) && BeforeNul(s) == s[..|BeforeNul(s)|]
    ensures |BeforeNul(s)| < |s| ==> s[|BeforeNul(s)|] == 0
  {
    if s != [] && s[0] != 0 {
      BeforeNulIff(s[1..]);
      var r := BeforeNul(s);
      assert r[1..] == BeforeNul(s[1..]) && s == [s[0]] + s[1..];
      assert NulFree(s) <==> NulFree(s[1..]) by {
        if NulFree(s[1..]) {
          forall i | 0 <= i < |s| ensures s[i] != 0 {
            assert i > 0 ==> s[1..][i - 1] != 0;
          }
        }
      }
    }
  }

  function EncodeString(s: Bytes): Bytes {
    Varint(Wrap(|BeforeNul(s)|)) + BeforeNul(s)
  }

  function ParseString(b: Bytes): Option<Parsed<Bytes>> {
    match ParseVarint(b)
    case None => None
    case Some(length) =>
      if |length.rest| < length.value then None
      else Some(Parsed(length.rest[..length.value], length.rest[length.value..]))
  }

  /**
    The reader of strings adds position and length as 64-bit numbers. In a message of `total` bytes whose unread part
    is b, that sum wraps, the bounds check lets the length pass, and a string of that length is asked for.
   */
  predicate Overruns(b: Bytes, total: nat) {
    var length := ParseVarint(b);
    length.Some? && total - |length.value.rest| + length.value.value >= TWO_64
  }

  /** Nine bytes, behind anything at all, that get past the bounds check. */
  lemma OverrunMessage(before: nat)
    ensures Overruns(Varint(TWO_64 - 1), before + |Varint(TWO_64 - 1)|) && ParseString(Varint(TWO_64 - 1)) == None
  {
    VarintRoundTrip(TWO_64 - 1, []);
    assert Varint(TWO_64 - 1) + [] == Varint(TWO_64 - 1);
  }

  /** A string comes back cut at its first NUL; so it comes back whole exactly when it has none. */
  lemma StringRoundTrip(s: Bytes, suffix: Bytes)
    requires |s| < TWO_64
    ensures ParseString(EncodeString(s) + suffix) == Some(Parsed(BeforeNul(s), suffix))
    ensures ParseString(EncodeString(s) + suffix) == Some(Parsed(s, suffix)) <==> NulFree(s)
  {
    var r := BeforeNul(s);
    BeforeNulIff(s);
    LengthRoundTrip(|r|, r + suffix);
    StringParsed(Varint(Wrap(|r|)), r, suffix);
  }

  lemma LengthRoundTrip(n: nat, suffix: Bytes)
    requires n < TWO_64
    ensures ParseVarint(Varint(Wrap(n)) + suffix) == Some(Parsed(n, suffix))
  {
    assert Wrap(n) == n;
    VarintRoundTrip(n, suffix);
  }

  lemma StringParsed(length: Bytes, r: Bytes, suffix: Bytes)
    requires ParseVarint(length + (r + suffix)) == Some(Parsed(|r|, r + suffix))
    ensures ParseString((length + r) + suffix) == Some(Parsed(r, suffix))
  {
    assert (length + r) + suffix == length + (r + suffix);
    assert (r + suffix)[..|r|] == r && (r + suffix)[|r|..] == suffix;
  }

  // ---- Items one after the other

  /** Reads `count` items. */
  function ParseMany<T>(parse: Bytes -> Option<Parsed<T>>, b: Bytes, count: nat): Option<Parsed<seq<T>>>
    decreases count
  {
    if count == 0 then Some(Parsed([], b))
    else
      match ParseMany(parse, b, count - 1)
      case None => None
      case Some(before) =>
        match parse(before.rest)
        case None => None
        case Some(item) => Some(Parsed(before.value + [item.value], item.rest))
  }

  function EncodeMany<T>(encode: T -> Bytes, items: seq<T>): Bytes {
    if items == [] then [] else EncodeMany(encode, items[..|items| - 1]) + encode(items[|items| - 1])
  }

  /** What is encoded as x is parsed as y, whatever follows. */
  ghost predicate Carries<T(!new), U(!new)>(encode: T -> Bytes, parse: Bytes -> Option<Parsed<U>>, x: T, y: U) {
    forall suffix: Bytes :: parse(encode(x) + suffix) == Some(Parsed(y, suffix))
  }

  lemma {:induction false} ManyRoundTrip<T(!new), U(!new)>(
      encode: T -> Bytes, parse: Bytes -> Option<Parsed<U>>, items: seq<T>, values: seq<U>, suffix: Bytes)
    requires |items| == |values| && forall i | 0 <= i < |items| :: Carries(encode, parse, items[i], values[i])
    ensures ParseMany(parse, EncodeMany(encode, items) + suffix, |items|) == Some(Parsed(values, suffix))
  {
    if items == [] {
      Nothing(suffix);
    } else {
      var n := |items| - 1;
      var a, b := EncodeMany(encode, items[..n]), encode(items[n]);
      assert Carries(encode, parse, items[n], values[n]);
      assert forall i | 0 <= i < n :: items[..n][i] == items[i] && values[..n][i] == values[i];
      ManyRoundTrip(encode, parse, items[..n], values[..n], b + suffix);
      ManyStep(parse, a, b, suffix, values[..n], values[n]);
      assert values == values[..n] + [values[n]];
    }
  }

  /** One more item behind those that were read. */
  lemma ManyStep<T>(
      parse: Bytes -> Option<Parsed<T>>, a: Bytes, b: Bytes, suffix: Bytes, before: seq<T>, value: T)
    requires ParseMany(parse, a + (b + suffix), |before|) == Some(Parsed(before, b + suffix))
    requires parse(b + suffix) == Some(Parsed(value, suffix))
    ensures ParseMany(parse, (a + b) + suffix, |before| + 1) == Some(Parsed(before + [value], suffix))
  {
    Regroup2(a, b, suffix);
  }

  lemma Regroup2(a: Bytes, b: Bytes, suffix: Bytes)
    ensures (a + b) + suffix == a + (b + suffix)
  {
  }

  lemma Nothing(suffix: Bytes)
    ensures [] + suffix == suffix
  {
  }

  // ---- References

  datatype Reference = Reference(addr: Word64, typeName: Bytes, parents: seq<Word64>)

  ghost predicate Sendable(r: Reference) {
    |r.typeName| < TWO_64 && NulFree(r.typeName) && |r.parents| < TWO_64
  }

  function EncodeReference(r: Reference): Bytes {
    Varint(r.addr) + EncodeString(r.typeName) + Varint(Wrap(|r.parents|)) + EncodeMany(Varint, r.parents)
  }

  ghost predicate AllSendable(list: seq<Reference>) {
    |list| < TWO_64 && forall i | 0 <= i < |list| :: Sendable(list[i])
  }

  /** The body of an SRV_REFERENCES message. */
  function EncodeReferences(requestId: Word64, list: seq<Reference>): Bytes {
    Fixed(requestId, 8) + Varint(Wrap(|list|)) + EncodeMany(EncodeReference, list)
  }

  datatype Received = Received(addr: nat, typeName: Bytes, parents: seq<nat>)

  function ParseReference(b: Bytes): Option<Parsed<Received>> {
    match ParseVarint(b)
    case None => None
    case Some(addr) =>
      match ParseString(addr.rest)
      case None => None
      case Some(name) =>
        match ParseVarint(name.rest)
        case None => None
        case Some(count) =>
          match ParseMany(ParseVarint, count.rest, count.value)
          case None => None
          case Some(parents) => Some(Parsed(Received(addr.value, name.value, parents.value), parents.rest))
  }

  datatype Answer = Answer(requestId: nat, references: seq<Received>)

  function ParseReferences(b: Bytes): Option<Parsed<Answer>> {
    match ParseFixed(b, 8)
    case None => None
    case Some(id) =>
      match ParseVarint(id.rest)
      case None => None
      case Some(count) =>
        match ParseMany(ParseReference, count.rest, count.value)
        case None => None
        case Some(list) => Some(Parsed(Answer(id.value, list.value), list.rest))
  }

  function AsReceived(r: Reference): Received {
    Received(r.addr, r.typeName, r.parents)
  }

  function AllReceived(list: seq<Reference>): (all: seq<Received>)
    ensures |all| == |list|
  {
    seq(|list|, i requires 0 <= i < |list| => AsReceived(list[i]))
  }

  lemma AddressesRoundTrip(addresses: seq<Word64>, suffix: Bytes)
    ensures ParseMany(ParseVarint, EncodeMany(Varint, addresses) + suffix, |addresses|)
         == Some(Parsed(addresses, suffix))
  {
    forall i | 0 <= i < |addresses| ensures Carries(Varint, ParseVarint, addresses[i], addresses[i]) {
      VarintCarried(addresses[i]);
    }
    ManyRoundTrip(Varint, ParseVarint, addresses, addresses, suffix);
  }

  lemma VarintCarried(v: Word64)
    ensures Carries(Varint, ParseVarint, v, v)
  {
    forall suffix: Bytes ensures ParseVarint(Varint(v) + suffix) == Some(Parsed(v, suffix)) {
      VarintRoundTrip(v, suffix);
    }
  }

  /** A reference from its four parts. */
  lemma ReferenceParsed(a: Bytes, b: Bytes, c: Bytes, d: Bytes, suffix: Bytes, r: Received)
    requires ParseVarint(a + (b + (c + (d + suffix)))) == Some(Parsed(r.addr, b + (c + (d + suffix))))
    requires ParseString(b + (c + (d + suffix))) == Some(Parsed(r.typeName, c + (d + suffix)))
    requires ParseVarint(c + (d + suffix)) == Some(Parsed(|r.parents|, d + suffix))
    requires ParseMany(ParseVarint, d + suffix, |r.parents|) == Some(Parsed(r.parents, suffix))
    ensures ParseReference(a + b + c + d + suffix) == Some(Parsed(r, suffix))
  {
    Regroup4(a, b, c, d, suffix);
  }

  lemma Regroup4(a: Bytes, b: Bytes, c: Bytes, d: Bytes, suffix: Bytes)
    ensures a + b + c + d + suffix == a + (b + (c + (d + suffix)))
  {
  }

  lemma ReferenceRoundTrip(r: Reference, suffix: Bytes)
    requires Sendable(r)
    ensures ParseReference(EncodeReference(r) + suffix) == Some(Parsed(AsReceived(r), suffix))
  {
    var addr, name, count, parents :=
      Varint(r.addr), EncodeString(r.typeName), Varint(Wrap(|r.parents|)), EncodeMany(Varint, r.parents);
    VarintRoundTrip(r.addr, name + (count + (parents + suffix)));
    StringRoundTrip(r.typeName, count + (parents + suffix));
    LengthRoundTrip(|r.parents|, parents + suffix);
    AddressesRoundTrip(r.parents, suffix);
    ReferenceParsed(addr, name, count, parents, suffix, AsReceived(r));
  }

  lemma ReferenceCarried(r: Reference)
    requires Sendable(r)
    ensures Carries(EncodeReference, ParseReference, r, AsReceived(r))
  {
    forall suffix: Bytes
      ensures ParseReference(EncodeReference(r) + suffix) == Some(Parsed(AsReceived(r), suffix)) {
      ReferenceRoundTrip(r, suffix);
    }
  }

  lemma ListRoundTrip(list: seq<Reference>, suffix: Bytes)
    requires AllSendable(list)
    ensures ParseMany(ParseReference, EncodeMany(EncodeReference, list) + suffix, |list|)
         == Some(Parsed(AllReceived(list), suffix))
  {
    var all := AllReceived(list);
    forall i | 0 <= i < |list| ensures Carries(EncodeReference, ParseReference, list[i], all[i]) {
      ReferenceCarried(list[i]);
    }
    ManyRoundTrip(EncodeReference, ParseReference, list, all, suffix);
  }

  /** Every list of references, with any nested lists of parents, survives the journey. */
  lemma ReferencesRoundTrip(requestId: Word64, list: seq<Reference>, suffix: Bytes)
    requires AllSendable(list)
    ensures ParseReferences(EncodeReferences(requestId, list) + suffix)
         == Some(Parsed(Answer(requestId, AllReceived(list)), suffix))
  {
    Widths();
    var body := EncodeMany(EncodeReference, list);
    FixedRoundTrip(requestId, 8, Varint(Wrap(|list|)) + (body + suffix));
    LengthRoundTrip(|list|, body + suffix);
    ListRoundTrip(list, suffix);
    AnswerParsed(Fixed(requestId, 8), Varint(Wrap(|list|)), body, suffix, Answer(requestId, AllReceived(list)));
  }

  /** An answer from its three parts. */
  lemma AnswerParsed(a: Bytes, b: Bytes, c: Bytes, suffix: Bytes, answer: Answer)
    requires ParseFixed(a + (b + (c + suffix)), 8) == Some(Parsed(answer.requestId, b + (c + suffix)))
    requires ParseVarint(b + (c + suffix)) == Some(Parsed(|answer.references|, c + suffix))
    requires ParseMany(ParseReference, c + suffix, |answer.references|) == Some(Parsed(answer.references, suffix))
    ensures ParseReferences(a + b + c + suffix) == Some(Parsed(answer, suffix))
  {
    Regroup3(a, b, c, suffix);
  }

  lemma Regroup3(a: Bytes, b: Bytes, c: Bytes, suffix: Bytes)
    ensures a + b + c + suffix == a + (b + (c + suffix))
  {
  }

  // ---- Allocation messages

  datatype AllocMessage = AllocMessage(frame: nat, addr: nat, size: nat, name: Bytes, callstack: Bytes)

  ghost predicate SendableAlloc(m: AllocMessage) {
    && m.frame < TWO_64 && m.addr < TWO_64 && m.size < 0x1_0000_0000
    && |m.name| < TWO_64 && |m.callstack| < TWO_64
  }

  /** The body of an SRV_ALLOC message. */
  function EncodeAlloc(m: AllocMessage): Bytes {
    Fixed(m.frame, 8) + Fixed(m.addr, 8) + Fixed(m.size, 4) + EncodeString(m.name) + EncodeString(m.callstack)
  }

  function ParseAlloc(b: Bytes): Option<Parsed<AllocMessage>> {
    match ParseFixed(b, 8)
    case None => None
    case Some(frame) =>
      match ParseFixed(frame.rest, 8)
      case None => None
      case Some(addr) =>
        match ParseFixed(addr.rest, 4)
        case None => None
        case Some(size) =>
          match ParseString(size.rest)
          case None => None
          case Some(name) =>
            match ParseString(name.rest)
            case None => None
            case Some(callstack) =>
              Some(Parsed(
                AllocMessage(frame.value, addr.value, size.value, name.value, callstack.value), callstack.rest))
  }

  lemma Regroup(a: Bytes, b: Bytes, c: Bytes, d: Bytes, e: Bytes, suffix: Bytes)
    ensures a + b + c + d + e + suffix == a + (b + (c + (d + (e + suffix))))
  {
  }

  lemma AllocRoundTrip(m: AllocMessage, suffix: Bytes)
    requires SendableAlloc(m)
    ensures ParseAlloc(EncodeAlloc(m) + suffix)
         == Some(Parsed(m.(name := BeforeNul(m.name), callstack := BeforeNul(m.callstack)), suffix))
  {
    Widths();
    var callstack := EncodeString(m.callstack) + suffix;
    var name := EncodeString(m.name) + callstack;
    var size := Fixed(m.size, 4) + name;
    var addr := Fixed(m.addr, 8) + size;
    Regroup(
      Fixed(m.frame, 8), Fixed(m.addr, 8), Fixed(m.size, 4), EncodeString(m.name), EncodeString(m.callstack), suffix);
    FixedRoundTrip(m.frame, 8, addr);
    FixedRoundTrip(m.addr, 8, size);
    FixedRoundTrip(m.size, 4, name);
    StringRoundTrip(m.name, callstack);
    StringRoundTrip(m.callstack, suffix);
  }

  /** Where the fields are: frame, address and size at offsets 0, 8 and 16, then the two strings. */
  lemma AllocLayout(m: AllocMessage)
    requires SendableAlloc(m)
    ensures var b := EncodeAlloc(m);
            && |b| == 20 + |EncodeString(m.name)| + |EncodeString(m.callstack)|
            && FromFixed(b[..8]) == m.frame && FromFixed(b[8..16]) == m.addr && FromFixed(b[16..20]) == m.size
            && b[20..] == EncodeString(m.name) + EncodeString(m.callstack)
  {
    Widths();
    FixedValue(m.frame, 8);
    FixedValue(m.addr, 8);
    FixedValue(m.size, 4);
    FieldsAt(
      Fixed(m.frame, 8), Fixed(m.addr, 8), Fixed(m.size, 4), EncodeString(m.name) + EncodeString(m.callstack));
    var start := Fixed(m.frame, 8) + Fixed(m.addr, 8) + Fixed(m.size, 4);
    Regroup2(start, EncodeString(m.name), EncodeString(m.callstack));
  }

  lemma FieldsAt(frame: Bytes, addr: Bytes, size: Bytes, rest: Bytes)
    requires |frame| == |addr| == 8 && |size| == 4
    ensures var b := frame + addr + size + rest;
            b[..8] == frame && b[8..16] == addr && b[16..20] == size && b[20..] == rest
  {
  }

  /** Reading the message overruns at one of its two strings. */
  predicate AllocOverruns(b: Bytes, total: nat) {
    var frame := ParseFixed(b, 20);
    frame.Some? &&
    var name := ParseString(frame.value.rest);
    Overruns(frame.value.rest, total) || (name.Some? && Overruns(name.value.rest, total))
  }

  // ---- Free messages

  datatype FreeMessage = FreeMessage(frame: nat, addr: nat, size: nat)

  /** The body of an SRV_FREE message. */
  function EncodeFree(m: FreeMessage): Bytes {
    Fixed(m.frame, 8) + Fixed(m.addr, 8) + Fixed(m.size, 4)
  }

  /** The same three fields at the same offsets, and nothing else. */
  lemma FreeLayout(m: FreeMessage)
    requires m.frame < TWO_64 && m.addr < TWO_64 && m.size < 0x1_0000_0000
    ensures var b := EncodeFree(m);
            && |b| == 20
            && FromFixed(b[..8]) == m.frame && FromFixed(b[8..16]) == m.addr && FromFixed(b[16..]) == m.size
  {
    Widths();
    FixedValue(m.frame, 8);
    FixedValue(m.addr, 8);
    FixedValue(m.size, 4);
    var b := EncodeFree(m);
    FieldsAt(Fixed(m.frame, 8), Fixed(m.addr, 8), Fixed(m.size, 4), []);
    assert b + [] == b && b[16..] == b[16..20];
  }

  function ParseFree(b: Bytes): Option<Parsed<FreeMessage>> {
    match ParseFixed(b, 8)
    case None => None
    case Some(frame) =>
      match ParseFixed(frame.rest, 8)
      case None => None
      case Some(addr) =>
        match ParseFixed(addr.rest, 4)
        case None => None
        case Some(size) => Some(Parsed(FreeMessage(frame.value, addr.value, size.value), size.rest))
  }

  lemma FreeRoundTrip(m: FreeMessage, suffix: Bytes)
    requires m.frame < TWO_64 && m.addr < TWO_64 && m.size < 0x1_0000_0000
    ensures ParseFree(EncodeFree(m) + suffix) == Some(Parsed(m, suffix))
  {
    Widths();
    var frame, addr, size := Fixed(m.frame, 8), Fixed(m.addr, 8), Fixed(m.size, 4);
    Regroup3(frame, addr, size, suffix);
    FixedRoundTrip(m.frame, 8, addr + (size + suffix));
    FixedRoundTrip(m.addr, 8, size + suffix);
    FixedRoundTrip(m.size, 4, suffix);
  }

  // ---- The command that asks for references

  function Word(v: Word64): Bytes {
    Fixed(v, 8)
  }

  function ParseWord(b: Bytes): Option<Parsed<nat>> {
    ParseFixed(b, 8)
  }

  /** The body of a CMD_REFERENCES message. */
  function EncodeCommand(requestId: Word64, addresses: seq<Word64>): Bytes {
    Fixed(requestId, 8) + Fixed(|addresses|, 8) + EncodeMany(Word, addresses)
  }

  datatype Command = Command(requestId: nat, addresses: seq<nat>)

  function ParseCommand(b: Bytes): Option<Parsed<Command>> {
    match ParseFixed(b, 8)
    case None => None
    case Some(id) =>
      match ParseFixed(id.rest, 8)
      case None => None
      case Some(count) =>
        match ParseMany(ParseWord, count.rest, count.value)
        case None => None
        case Some(list) => Some(Parsed(Command(id.value, list.value), list.rest))
  }

  lemma WordCarried(v: Word64)
    ensures Carries(Word, ParseWord, v, v)
  {
    Widths();
    forall suffix: Bytes ensures ParseWord(Word(v) + suffix) == Some(Parsed(v, suffix)) {
      FixedRoundTrip(v, 8, suffix);
    }
  }

  lemma WordsRoundTrip(words: seq<Word64>, suffix: Bytes)
    ensures ParseMany(ParseWord, EncodeMany(Word, words) + suffix, |words|) == Some(Parsed(words, suffix))
  {
    forall i | 0 <= i < |words| ensures Carries(Word, ParseWord, words[i], words[i]) {
      WordCarried(words[i]);
    }
    ManyRoundTrip(Word, ParseWord, words, words, suffix);
  }

  lemma CommandRoundTrip(requestId: Word64, addresses: seq<Word64>, suffix: Bytes)
    requires |addresses| < TWO_64
    ensures ParseCommand(EncodeCommand(requestId, addresses) + suffix)
         == Some(Parsed(Command(requestId, addresses), suffix))
  {
    Widths();
    var body := EncodeMany(Word, addresses) + suffix;
    assert EncodeCommand(requestId, addresses) + suffix == Fixed(requestId, 8) + (Fixed(|addresses|, 8) + body);
    FixedRoundTrip(requestId, 8, Fixed(|addresses|, 8) + body);
    FixedRoundTrip(|addresses|, 8, body);
    WordsRoundTrip(addresses, suffix);
  }
}
