/**
 The CPython 3.11 exception table: a decoder that consumes a shared byte iterator, and a
 specification encoder that follows "Format of the exception table" in
 Objects/exception_handling_notes.txt.
 */
module ExceptionTables {

  import opened Opcodes

  /** One protected interval of bytecode and its handler. */
  datatype Region = Region(start: int, end: int, target: int, depth: int, lasti: bool)

  datatype Parsed<+T> = Truncated | Parsed(value: T, rest: seq<Byte>)

  datatype Decoded = Truncation | InvalidRegion(region: Region) | Regions(regions: seq<Region>)

  // ---------- the format ----------

  /** Six payload bits a byte, most significant first; bit 6 says that another byte follows. */
  function VarintFrom(data: seq<Byte>, value: nat): Parsed<nat> {
    if data == [] then Truncated
    else if data[0] / 64 % 2 == 1 then VarintFrom(data[1..], value * 64 + data[0] % 64)
    else Parsed(value * 64 + data[0] % 64, data[1..])
  }

  function Varint(data: seq<Byte>): Parsed<nat> {
    VarintFrom(data, 0)
  }

  /** Four varints: start, length and target in code units, then depth with the lasti bit. */
  function Entry(data: seq<Byte>): (r: Parsed<Region>)
  {
    var a := Varint(data);
    if a.Truncated? then Truncated else
    var b := Varint(a.rest);
    if b.Truncated? then Truncated else
    var c := Varint(b.rest);
    if c.Truncated? then Truncated else
    var d := Varint(c.rest);
    if d.Truncated? then Truncated else
    Parsed(Region(a.value * 2, a.value * 2 + b.value * 2, c.value * 2, d.value / 2, d.value % 2 == 1), d.rest)
  }

  lemma VarintStep(data: seq<Byte>, value: nat)
    requires data != []
    ensures VarintFrom(data, value) ==
            if data[0] / 64 % 2 == 1 then VarintFrom(data[1..], value * 64 + data[0] % 64)
            else Parsed(value * 64 + data[0] % 64, data[1..])
  {
  }

  lemma VarintEnd(value: nat)
    ensures VarintFrom([], value).Truncated?
  {
  }

  lemma {:induction false} VarintConsumes(data: seq<Byte>, value: nat)
    requires VarintFrom(data, value).Parsed?
    ensures var rest := VarintFrom(data, value).rest;
            |rest| < |data| && rest == data[|data| - |rest|..]
  {
    if data[0] / 64 % 2 == 1 {
      VarintConsumes(data[1..], value * 64 + data[0] % 64);
    }
  }

  lemma EntryConsumes(data: seq<Byte>)
    requires Entry(data).Parsed?
    ensures |Entry(data).rest| < |data| && Entry(data).rest == data[|data| - |Entry(data).rest|..]
  {
    VarintConsumes(data, 0);
    var a := Varint(data).rest;
    VarintConsumes(a, 0);
    var b := Varint(a).rest;
    VarintConsumes(b, 0);
    VarintConsumes(Varint(b).rest, 0);
  }

  /** Entries until the data ends. */
  function Entries(data: seq<Byte>): Parsed<seq<Region>>
    decreases |data|
  {
    if data == [] then Parsed([], [])
    else if Entry(data).Truncated? then Truncated
    else
      EntryConsumes(data);
      var more := Entries(Entry(data).rest);
      if more.Truncated? then Truncated else Parsed([Entry(data).value] + more.value, [])
  }

  lemma EntriesUnfold(data: seq<Byte>)
    requires data != []
    ensures Entry(data).Truncated? ==> Entries(data).Truncated?
    ensures Entry(data).Parsed? ==>
              && |Entry(data).rest| < |data|
              && var more := Entries(Entry(data).rest);
                 Entries(data) == if more.Truncated? then Truncated else Parsed([Entry(data).value] + more.value, [])
  {
    if Entry(data).Parsed? {
      EntryConsumes(data);
    }
  }

  lemma NoEntries()
    ensures Entries([]) == Parsed([], [])
  {
  }

  // ---------- the decoder ----------

  class ByteIterator {
    const data: seq<Byte>
    var position: nat

    constructor (data: seq<Byte>)
      ensures this.data == data && position == 0
    {
      this.data, position := data, 0;
    }

    ghost predicate Valid()
      reads this`position
    {
      position <= |data|
    }

    ghost function Rest(): seq<Byte>
      requires Valid()
      reads this`position
    {
      data[position..]
    }

    method Next() returns (b: Byte)
      requires Valid() && Rest() != []
      modifies this`position
      ensures Valid() && [b] + Rest() == old(Rest())
    {
      b := data[position];
      position := position + 1;
    }

    /** Consume one varint; nothing when the data ends inside it. */
    method ParseVarint() returns (ok: bool, value: nat)
      requires Valid()
      modifies this`position
      ensures Valid()
      ensures ok <==> Varint(old(Rest())).Parsed?
      ensures ok ==> Parsed(value, Rest()) == Varint(old(Rest()))
    {
      hide VarintFrom;
      value := 0;
      VarintEnd(0);
      if position == |data| {
        assert Rest() == [];
        return false, 0;
      }
      ghost var before := Rest();
      var byte := Next();
      assert before[0] == byte && before[1..] == Rest();
      VarintStep(before, 0);
      value := byte % 64;
      while byte / 64 % 2 == 1
        invariant Valid()
        invariant if byte / 64 % 2 == 1 then VarintFrom(Rest(), value) == Varint(old(Rest()))
                  else Parsed(value, Rest()) == Varint(old(Rest()))
        decreases |data| - position, byte / 64 % 2
      {
        ghost var before, given := Rest(), value;
        VarintEnd(given);
        if position == |data| {
          assert before == [];
          return false, 0;
        }
        byte := Next();
        assert before[0] == byte && before[1..] == Rest();
        VarintStep(before, given);
        value := value * 64 + byte % 64;
      }
      ok := true;
    }

    /** Consume one entry. */
    method ParseEntry() returns (ok: bool, region: Region)
      requires Valid()
      modifies this`position
      ensures Valid()
      ensures ok <==> Entry(old(Rest())).Parsed?
      ensures ok ==> Parsed(region, Rest()) == Entry(old(Rest()))
    {
      hide Varint;
      region := Region(0, 0, 0, 0, false);
      var a, b, c, d;
      ok, a := ParseVarint();
      if !ok {
        return;
      }
      ok, b := ParseVarint();
      if !ok {
        return;
      }
      ok, c := ParseVarint();
      if !ok {
        return;
      }
      ok, d := ParseVarint();
      if !ok {
        return;
      }
      region := Region(a * 2, a * 2 + b * 2, c * 2, d / 2, d % 2 == 1);
    }
  }

  /** Decode raw table bytes. */
  method DecodeBytes(data: seq<Byte>) returns (r: Decoded)
    ensures r == (if Entries(data).Truncated? then Truncation else Regions(Entries(data).value))
  {
    var stream := new ByteIterator(data);
    var entries: seq<Region> := [];
    assert stream.Rest() == data;
    while stream.position < |data|
      invariant stream.Valid() && stream.data == data
      invariant Entries(data).Truncated? <==> Entries(stream.Rest()).Truncated?
      invariant Entries(data).Parsed? ==> Entries(data).value == entries + Entries(stream.Rest()).value
      decreases |data| - stream.position
    {
      ghost var before := stream.Rest();
      var ok, region := stream.ParseEntry();
      if !ok {
        return Truncation;
      }
      EntryConsumes(before);
      entries := entries + [region];
    }
    r := Regions(entries);
  }

  /** Even offsets, nonnegative length and depth: what the format can express. */
  predicate Encodable(r: Region) {
    && 0 <= r.start && r.start % 2 == 0
    && r.start <= r.end && r.end % 2 == 0
    && 0 <= r.target && r.target % 2 == 0
    && 0 <= r.depth
  }

  /** Whatever parses is expressible, so only empty or out-of-range regions can be rejected later. */
  lemma {:induction false} DecodedEncodable(data: seq<Byte>)
    ensures Entries(data).Parsed? ==> forall r :: r in Entries(data).value ==> Encodable(r)
    decreases |data|
  {
    hide Entries, Varint;
    if data == [] {
      NoEntries();
    } else {
      EntriesUnfold(data);
      if Entry(data).Parsed? {
        DecodedEncodable(Entry(data).rest);
      }
    }
  }

  predicate ValidRegion(r: Region, codeLength: int) {
    && 0 <= r.start && r.start % 2 == 0
    && r.start < r.end <= codeLength && r.end % 2 == 0
    && 0 <= r.target < codeLength && r.target % 2 == 0
    && 0 <= r.depth
  }

  predicate FirstInvalid(regions: seq<Region>, codeLength: int, r: Region) {
    exists k ::
      && 0 <= k < |regions| && regions[k] == r && !ValidRegion(r, codeLength)
      && forall j :: 0 <= j < k ==> ValidRegion(regions[j], codeLength)
  }

  method ValidateRegions(regions: seq<Region>, codeLength: int) returns (r: Decoded)
    ensures r == Regions(regions) <==> forall x :: x in regions ==> ValidRegion(x, codeLength)
    ensures r != Regions(regions) ==> r.InvalidRegion? && FirstInvalid(regions, codeLength, r.region)
  {
    for i := 0 to |regions|
      invariant forall k :: 0 <= k < i ==> ValidRegion(regions[k], codeLength)
    {
      if !ValidRegion(regions[i], codeLength) {
        return InvalidRegion(regions[i]);
      }
    }
    r := Regions(regions);
  }

  method DecodeTable(data: seq<Byte>, codeLength: int) returns (r: Decoded)
    ensures r.Regions? <==> Entries(data).Parsed? && forall x :: x in Entries(data).value ==> ValidRegion(x, codeLength)
    ensures r.Regions? <==>
              Entries(data).Parsed?
              && forall x :: x in Entries(data).value ==> x.start < x.end <= codeLength && x.target < codeLength
    ensures r.Regions? ==> r.regions == Entries(data).value
    ensures r.Truncation? <==> Entries(data).Truncated?
  {
    r := DecodeBytes(data);
    DecodedEncodable(data);
    if r.Regions? {
      r := ValidateRegions(r.regions, codeLength);
    }
  }

  // ---------- the specification encoder ----------

  /** The payload groups of n, each announcing a successor. */
  function Continued(n: nat): (s: seq<Byte>)
    ensures s != []
  {
    if n < 64 then [n + 64] else Continued(n / 64) + [n % 64 + 64]
  }

  function EncodeVarint(n: nat): (s: seq<Byte>)
    ensures s != [] && s[0] < 128
  {
    if n < 64 then [n] else
      ContinuedSmall(n / 64);
      Continued(n / 64) + [n % 64]
  }

  lemma ContinuedSmall(n: nat)
    ensures Continued(n)[0] < 128
  {
  }

  /** The start marker: bit 7 of the first byte of an entry. */
  function MarkStart(s: seq<Byte>): seq<Byte>
    requires s != [] && s[0] < 128
  {
    [s[0] + 128] + s[1..]
  }

  function EncodeEntry(r: Region): (s: seq<Byte>)
    requires Encodable(r)
    ensures s != []
  {
    MarkStart(EncodeVarint(r.start / 2)) + EncodeVarint((r.end - r.start) / 2) + EncodeVarint(r.target / 2)
    + EncodeVarint(r.depth * 2 + if r.lasti then 1 else 0)
  }

  function EncodeTable(regions: seq<Region>): seq<Byte>
    requires forall r :: r in regions ==> Encodable(r)
  {
    if regions == [] then [] else EncodeEntry(regions[0]) + EncodeTable(regions[1..])
  }

  // ---------- round trip ----------

  lemma {:induction false} ContinuedParses(n: nat, tail: seq<Byte>)
    ensures VarintFrom(Continued(n) + tail, 0) == VarintFrom(tail, n)
  {
    if n < 64 {
      assert ([n + 64] + tail)[1..] == tail;
    } else {
      var last := n % 64 + 64;
      assert Continued(n) + tail == Continued(n / 64) + ([last] + tail);
      ContinuedParses(n / 64, [last] + tail);
      assert ([last] + tail)[1..] == tail;
    }
  }

  /** The start marker is invisible to the varint parser. */
  lemma MarkInvisible(s: seq<Byte>, tail: seq<Byte>)
    requires s != [] && s[0] < 128
    ensures Varint(MarkStart(s) + tail) == Varint(s + tail)
  {
    assert (MarkStart(s) + tail)[1..] == (s + tail)[1..];
    assert (s[0] + 128) / 64 % 2 == s[0] / 64 % 2;
    assert (s[0] + 128) % 64 == s[0] % 64;
  }

  lemma VarintRoundTrip(n: nat, tail: seq<Byte>)
    ensures Varint(EncodeVarint(n) + tail) == Parsed(n, tail)
  {
    if n < 64 {
      assert ([n] + tail)[1..] == tail;
    } else {
      var last := n % 64;
      assert EncodeVarint(n) + tail == Continued(n / 64) + ([last] + tail);
      ContinuedParses(n / 64, [last] + tail);
      assert ([last] + tail)[1..] == tail;
    }
  }

  lemma EntryRoundTrip(r: Region, tail: seq<Byte>)
    requires Encodable(r)
    ensures Entry(EncodeEntry(r) + tail) == Parsed(r, tail)
  {
    hide Varint, EncodeVarint, MarkStart;
    var a, b, c := EncodeVarint(r.start / 2), EncodeVarint((r.end - r.start) / 2), EncodeVarint(r.target / 2);
    var d := EncodeVarint(r.depth * 2 + if r.lasti then 1 else 0);
    assert EncodeEntry(r) + tail == MarkStart(a) + (b + (c + (d + tail)));
    MarkInvisible(a, b + (c + (d + tail)));
    VarintRoundTrip(r.start / 2, b + (c + (d + tail)));
    VarintRoundTrip((r.end - r.start) / 2, c + (d + tail));
    VarintRoundTrip(r.target / 2, d + tail);
    VarintRoundTrip(r.depth * 2 + if r.lasti then 1 else 0, tail);
  }

  /** Decoding the encoding of any list of even-offset regions returns that list. */
  lemma {:induction false} TableRoundTrip(regions: seq<Region>)
    requires forall r :: r in regions ==> Encodable(r)
    ensures Entries(EncodeTable(regions)) == Parsed(regions, [])
  {
    hide Entry, Entries, EncodeEntry;
    if regions == [] {
      NoEntries();
    } else {
      EntryRoundTrip(regions[0], EncodeTable(regions[1..]));
      EntriesUnfold(EncodeTable(regions));
      assert regions == [regions[0]] + regions[1..];
      TableRoundTrip(regions[1..]);
    }
  }

  // ---------- the format, byte by byte ----------

  /** Every byte but the last announces a successor. */
  predicate Delimited(s: seq<Byte>) {
    s != [] && s[|s| - 1] / 64 % 2 == 0 && forall i :: 0 <= i < |s| - 1 ==> s[i] / 64 % 2 == 1
  }

  function Power(n: nat): nat {
    if n == 0 then 1 else 64 * Power(n - 1)
  }

  /** The payloads as digits to base 64, the last one counting single units. */
  function Digits(s: seq<Byte>): nat {
    if s == [] then 0 else s[0] % 64 * Power(|s| - 1) + Digits(s[1..])
  }

  lemma {:induction false} DigitsParse(s: seq<Byte>, tail: seq<Byte>, value: nat)
    requires Delimited(s)
    ensures VarintFrom(s + tail, value) == Parsed(value * Power(|s|) + Digits(s), tail)
  {
    assert (s + tail)[1..] == s[1..] + tail;
    assert Power(|s|) == 64 * Power(|s| - 1);
    if |s| == 1 {
      assert s[1..] + tail == tail;
    } else {
      DigitsParse(s[1..], tail, value * 64 + s[0] % 64);
      Horner(value, s[0] % 64, Power(|s| - 1));
    }
  }

  lemma Horner(value: nat, digit: nat, power: nat)
    ensures (value * 64 + digit) * power == value * (64 * power) + digit * power
  {
  }

  /** An entry is four delimited numbers: start, length and target count code units, the last bit is lasti. */
  lemma EntryBytes(a: seq<Byte>, b: seq<Byte>, c: seq<Byte>, d: seq<Byte>, tail: seq<Byte>)
    requires Delimited(a) && Delimited(b) && Delimited(c) && Delimited(d)
    ensures Entry(a + b + c + d + tail) ==
            Parsed(Region(2 * Digits(a), 2 * Digits(a) + 2 * Digits(b), 2 * Digits(c), Digits(d) / 2,
                          Digits(d) % 2 == 1), tail)
  {
    hide Delimited, VarintFrom, Digits;
    assert a + b + c + d + tail == a + (b + (c + (d + tail)));
    DigitsParse(a, b + (c + (d + tail)), 0);
    DigitsParse(b, c + (d + tail), 0);
    DigitsParse(c, d + tail, 0);
    DigitsParse(d, tail, 0);
  }

  /** Parsing fails exactly when the data never comes to a byte that ends a number. */
  lemma {:induction false} NumberTruncated(data: seq<Byte>, value: nat)
    ensures VarintFrom(data, value).Truncated? <==> forall i :: 0 <= i < |data| ==> data[i] / 64 % 2 == 1
  {
    if data != [] {
      NumberTruncated(data[1..], value * 64 + data[0] % 64);
      if data[0] / 64 % 2 == 1 {
        assert forall i :: 1 <= i < |data| ==> data[i] == data[1..][i - 1];
      }
    }
  }

  lemma {:induction false} ContinuedBytes(n: nat)
    ensures forall x :: x in Continued(n) ==> 64 <= x < 128
  {
    if n >= 64 {
      ContinuedBytes(n / 64);
    }
  }

  lemma EncodedBytes(n: nat)
    ensures forall x :: x in EncodeVarint(n) ==> x < 128
  {
    ContinuedBytes(n / 64);
  }

  /** In an encoded entry bit 7 is set in the first byte alone. */
  lemma StartMarked(r: Region)
    requires Encodable(r)
    ensures EncodeEntry(r)[0] >= 128 && forall i :: 0 < i < |EncodeEntry(r)| ==> EncodeEntry(r)[i] < 128
  {
    hide EncodeVarint;
    EncodedBytes(r.start / 2);
    EncodedBytes((r.end - r.start) / 2);
    EncodedBytes(r.target / 2);
    EncodedBytes(r.depth * 2 + if r.lasti then 1 else 0);
    var first := EncodeVarint(r.start / 2);
    var others := EncodeVarint((r.end - r.start) / 2) + EncodeVarint(r.target / 2)
                  + EncodeVarint(r.depth * 2 + if r.lasti then 1 else 0);
    assert EncodeEntry(r) == MarkStart(first) + others;
    forall i | 0 < i < |EncodeEntry(r)| ensures EncodeEntry(r)[i] < 128 {
      if i < |first| {
        assert EncodeEntry(r)[i] == first[i] && first[i] in first;
      } else {
        assert EncodeEntry(r)[i] == others[i - |first|] && others[i - |first|] in others;
      }
    }
  }

  // ---------- truncation ----------

  /** What a self-delimiting parser returns once the last `drop` bytes of its input are cut off. */
  function Cut<T>(p: Parsed<T>, drop: nat): Parsed<T> {
    if p.Truncated? || |p.rest| < drop then Truncated else Parsed(p.value, p.rest[..|p.rest| - drop])
  }

  /** Varints delimit themselves: bytes after a varint never change it, and a cut inside one is reported. */
  lemma {:induction false} VarintCut(data: seq<Byte>, value: nat, drop: nat)
    requires drop <= |data|
    ensures VarintFrom(data[..|data| - drop], value) == Cut(VarintFrom(data, value), drop)
  {
    if drop == |data| {
      if VarintFrom(data, value).Parsed? {
        VarintConsumes(data, value);
        VarintNeedsInput(data, value);
      }
    } else {
      assert data[..|data| - drop][1..] == data[1..][..|data| - 1 - drop];
      if data[0] / 64 % 2 == 1 {
        VarintCut(data[1..], value * 64 + data[0] % 64, drop);
      }
    }
  }

  lemma VarintNeedsInput(data: seq<Byte>, value: nat)
    requires VarintFrom(data, value).Parsed?
    ensures Cut(VarintFrom(data, value), |data|).Truncated?
  {
    VarintConsumes(data, value);
  }

  lemma EntryCut(data: seq<Byte>, drop: nat)
    requires drop <= |data|
    ensures Entry(data[..|data| - drop]) == Cut(Entry(data), drop)
  {
    hide VarintFrom;
    VarintCut(data, 0, drop);
    var a := Varint(data);
    if a.Parsed? && drop <= |a.rest| {
      VarintCut(a.rest, 0, drop);
      var b := Varint(a.rest);
      if b.Parsed? && drop <= |b.rest| {
        VarintCut(b.rest, 0, drop);
        var c := Varint(b.rest);
        if c.Parsed? && drop <= |c.rest| {
          VarintCut(c.rest, 0, drop);
        }
      }
    }
    EntryShrinks(data);
  }

  /** When an entry parses, each of its four varints left at least as many bytes as the whole entry did. */
  lemma EntryShrinks(data: seq<Byte>)
    ensures Entry(data).Parsed? ==>
              var a := Varint(data);
              var b := Varint(a.rest);
              var c := Varint(b.rest);
              |Entry(data).rest| <= |c.rest| <= |b.rest| <= |a.rest|
  {
    if Entry(data).Parsed? {
      var a := Varint(data);
      var b := Varint(a.rest);
      var c := Varint(b.rest);
      VarintConsumes(a.rest, 0);
      VarintConsumes(b.rest, 0);
      VarintConsumes(c.rest, 0);
    }
  }

  /** How many bytes follow the first j entries. */
  function Remaining(data: seq<Byte>, j: nat): nat
    decreases j
  {
    if j == 0 || Entry(data).Truncated? then |data| else Remaining(Entry(data).rest, j - 1)
  }

  lemma {:induction false} RemainingShrinks(data: seq<Byte>, j: nat)
    ensures Remaining(data, j) <= |data|
    decreases j
  {
    if j > 0 && Entry(data).Parsed? {
      EntryConsumes(data);
      RemainingShrinks(Entry(data).rest, j - 1);
    }
  }

  /**
   Decodable data cut short decodes exactly when the cut is between two entries, and then yields
   the entries before the cut; a cut inside an entry is always reported.
   */
  lemma {:induction false} TruncationDetected(data: seq<Byte>, drop: nat)
    requires Entries(data).Parsed? && drop <= |data|
    ensures Entries(data[..|data| - drop]).Parsed? <==>
              exists j: nat :: j <= |Entries(data).value| && Remaining(data, j) == drop
    ensures forall j: nat :: j <= |Entries(data).value| && Remaining(data, j) == drop ==>
              Entries(data[..|data| - drop]) == Parsed(Entries(data).value[..j], [])
    decreases |data|
  {
    hide Entry, Entries;
    var cut := data[..|data| - drop];
    NoEntries();
    if drop == |data| {
      assert cut == [];
      assert Remaining(data, 0) == drop;
      assert exists j: nat :: j <= |Entries(data).value| && Remaining(data, j) == drop;
      forall j: nat | j <= |Entries(data).value| && Remaining(data, j) == drop
        ensures Parsed([], []) == Parsed(Entries(data).value[..j], [])
      {
        if j > 0 {
          EntriesUnfold(data);
          RemainingShrinks(Entry(data).rest, j - 1);
        }
      }
    } else {
      EntriesUnfold(data);
      EntriesUnfold(cut);
      EntryCut(data, drop);
      var rest := Entry(data).rest;
      if drop <= |rest| {
        TruncationDetected(rest, drop);
        CutLater(data, drop);
      } else {
        forall j: nat ensures Remaining(data, j) != drop {
          if j > 0 {
            RemainingShrinks(rest, j - 1);
          }
        }
      }
    }
  }

  /** The law for the data after the first entry gives the law for the whole. */
  lemma CutLater(data: seq<Byte>, drop: nat)
    requires Entries(data).Parsed? && drop < |data| && Entry(data).Parsed? && drop <= |Entry(data).rest|
    requires var rest := Entry(data).rest;
             && (Entries(rest[..|rest| - drop]).Parsed? ==>
                   exists j: nat :: j <= |Entries(rest).value| && Remaining(rest, j) == drop)
             && forall j: nat :: j <= |Entries(rest).value| && Remaining(rest, j) == drop ==>
                  Entries(rest[..|rest| - drop]) == Parsed(Entries(rest).value[..j], [])
    ensures Entries(data[..|data| - drop]).Parsed? ==>
              exists j: nat :: j <= |Entries(data).value| && Remaining(data, j) == drop
    ensures forall j: nat :: j <= |Entries(data).value| && Remaining(data, j) == drop ==>
              Entries(data[..|data| - drop]) == Parsed(Entries(data).value[..j], [])
  {
    hide Entry, Entries;
    var rest := Entry(data).rest;
    EntriesUnfold(data);
    EntriesUnfold(data[..|data| - drop]);
    EntryCut(data, drop);
    if Entries(data[..|data| - drop]).Parsed? {
      var j: nat :| j <= |Entries(rest).value| && Remaining(rest, j) == drop;
      assert Remaining(data, j + 1) == drop;
    }
    forall j: nat | j <= |Entries(data).value| && Remaining(data, j) == drop
      ensures Entries(data[..|data| - drop]) == Parsed(Entries(data).value[..j], [])
    {
      assert j > 0 && Remaining(rest, j - 1) == drop;
      assert Entries(data).value[..j] == [Entry(data).value] + Entries(rest).value[..j - 1];
    }
  }
}
