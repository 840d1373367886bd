/**
 The physical layout of 3.11 bytecode: the scanner's check that every instruction is followed by
 exactly its inline caches, and the normalizer's cache owners and index maps.
 */
module CacheLayouts {
  import opened Options
  import opened Opcodes

  /** CPython 3.11's inline cache entries. */
  function InlineCaches(name: string): nat {
    if name == "BINARY_SUBSCR" then 4
    else if name == "STORE_SUBSCR" then 1
    else if name == "UNPACK_SEQUENCE" then 1
    else if name == "STORE_ATTR" then 4
    else if name == "LOAD_ATTR" then 4
    else if name == "COMPARE_OP" then 2
    else if name == "LOAD_GLOBAL" then 5
    else if name == "BINARY_OP" then 1
    else if name == "LOAD_METHOD" then 10
    else if name == "PRECALL" then 1
    else if name == "CALL" then 4
    else 0
  }

  // ---------- the scanner's check ----------

  datatype Verdict =
    | Accepted
    | OddLength
    | UnknownOpcode(offset: nat)
    | OwnerlessCache(offset: nat)
    | MissingCache(owner: nat, offset: nat)

  /** Opcodes outside the table and those named "<n>" are unassigned. */
  predicate Known(opcode: Byte, opnames: seq<string>) {
    opcode < |opnames| && var name := opnames[opcode];
                          !(name != "" && name[0] == '<' && name[|name| - 1] == '>')
  }

  /** Unassigned names are enclosed in angle brackets. */
  lemma KnownMeans(opcode: Byte, opnames: seq<string>)
    ensures Known(opcode, opnames) <==>
              opcode < |opnames| && forall inner :: opnames[opcode] != "<" + inner + ">"
  {
    if opcode < |opnames| {
      var name := opnames[opcode];
      if |name| >= 2 && name[0] == '<' && name[|name| - 1] == '>' {
        var inner := name[1..|name| - 1];
        assert name == "<" + inner + ">";
      }
    }
  }

  /** Eleven instructions have caches. */
  lemma CachedInstructions(name: string)
    ensures InlineCaches(name) != 0 <==>
              name in [
                "STORE_SUBSCR", "UNPACK_SEQUENCE", "BINARY_OP", "PRECALL", "COMPARE_OP", "BINARY_SUBSCR",
                "STORE_ATTR", "LOAD_ATTR", "CALL", "LOAD_GLOBAL", "LOAD_METHOD"]
    ensures name in ["STORE_SUBSCR", "UNPACK_SEQUENCE", "BINARY_OP", "PRECALL"] ==> InlineCaches(name) == 1
    ensures name in ["BINARY_SUBSCR", "STORE_ATTR", "LOAD_ATTR", "CALL"] ==> InlineCaches(name) == 4
    ensures InlineCaches("COMPARE_OP") == 2 && InlineCaches("LOAD_GLOBAL") == 5 && InlineCaches("LOAD_METHOD") == 10
  {
  }

  /** The names of the code units. */
  function UnitNames(code: seq<Byte>, opnames: seq<string>): (names: seq<string>)
    ensures |names| == |code| / 2
  {
    seq(|code| / 2, k requires 0 <= k < |code| / 2 =>
      if code[2 * k] < |opnames| then opnames[code[2 * k]] else "<unassigned>")
  }

  /** Unit k is a cache, or is followed by its own caches and then by another instruction. */
  predicate Served(names: seq<string>, k: nat)
    requires k < |names|
  {
    names[k] == "CACHE" ||
    var last := k + InlineCaches(names[k]);
    && last < |names|
    && (forall j :: k < j <= last ==> names[j] == "CACHE")
    && (last + 1 < |names| ==> names[last + 1] != "CACHE")
  }

  predicate WellLaid(names: seq<string>) {
    && (names != [] ==> names[0] != "CACHE")
    && forall k :: 0 <= k < |names| ==> Served(names, k)
  }

  lemma WellLaidExtends(names: seq<string>, i: nat)
    requires i < |names| && WellLaid(names[..i]) && names[i] != "CACHE"
    requires i + InlineCaches(names[i]) < |names|
    requires forall j :: i < j <= i + InlineCaches(names[i]) ==> names[j] == "CACHE"
    ensures WellLaid(names[..i + InlineCaches(names[i]) + 1])
  {
    hide InlineCaches;
    var longer := names[..i + InlineCaches(names[i]) + 1];
    forall k | 0 <= k < |longer| ensures Served(longer, k) {
      if k < i {
        assert Served(names[..i], k);
      }
    }
  }

  lemma NameAt(code: seq<Byte>, opnames: seq<string>, at: nat)
    requires |code| % 2 == 0 && at % 2 == 0 && at < |code| && code[at] < |opnames|
    ensures at / 2 < |code| / 2 && UnitNames(code, opnames)[at / 2] == opnames[code[at]]
  {
    assert 2 * (at / 2) == at;
  }

  /** The instruction at `last` and its caches fill the units up to i. */
  predicate EndsBefore(names: seq<string>, last: nat, i: nat) {
    last < i <= |names| && names[last] != "CACHE" && last + InlineCaches(names[last]) + 1 == i
  }

  lemma Orphaned(names: seq<string>, last: nat, i: nat)
    requires i < |names| && names[i] == "CACHE"
    requires i > 0 ==> EndsBefore(names, last, i)
    ensures !WellLaid(names)
  {
    hide InlineCaches;
    if i > 0 {
      assert !Served(names, last);
    }
  }

  lemma Unserved(names: seq<string>, i: nat, j: nat)
    requires i < |names| && names[i] != "CACHE" && i < j <= i + InlineCaches(names[i])
    requires j < |names| ==> names[j] != "CACHE"
    ensures !WellLaid(names)
  {
    hide InlineCaches;
    assert !Served(names, i);
  }

  /** What each verdict of the layout pass says. */
  predicate Justified(names: seq<string>, r: Verdict) {
    match r
    case Accepted => WellLaid(names)
    case OwnerlessCache(offset) =>
      var i := offset / 2;
      && offset % 2 == 0 && i < |names| && WellLaid(names[..i]) && names[i] == "CACHE" && !WellLaid(names)
    case MissingCache(owner, offset) =>
      var i, j := owner / 2, offset / 2;
      && owner % 2 == 0 && offset % 2 == 0 && i < |names| && WellLaid(names[..i]) && names[i] != "CACHE"
      && i < j <= i + InlineCaches(names[i])
      && (forall k :: i < k < j ==> k < |names| && names[k] == "CACHE")
      && (j < |names| ==> names[j] != "CACHE") && !WellLaid(names)
    case _ => false
  }

  predicate AllKnown(code: seq<Byte>, opnames: seq<string>) {
    forall k :: 0 <= k < |code| / 2 ==> Known(code[2 * k], opnames)
  }

  method ScanOpcodes(code: seq<Byte>, opnames: seq<string>) returns (r: Verdict)
    ensures if r == Accepted then AllKnown(code, opnames)
            else
              && r.UnknownOpcode? && r.offset % 2 == 0 && r.offset / 2 < |code| / 2
              && !Known(code[r.offset], opnames) && AllKnown(code[..r.offset], opnames)
  {
    for k := 0 to |code| / 2
      invariant forall j :: 0 <= j < k ==> Known(code[2 * j], opnames)
    {
      if !Known(code[2 * k], opnames) {
        return UnknownOpcode(2 * k);
      }
    }
    r := Accepted;
  }

  method ScanCaches(code: seq<Byte>, opnames: seq<string>, cacheOpcode: Byte) returns (r: Verdict)
    requires |code| % 2 == 0 && AllKnown(code, opnames)
    requires cacheOpcode < |opnames|
    requires forall c :: 0 <= c < |opnames| ==> (opnames[c] == "CACHE" <==> c == cacheOpcode)
    ensures Justified(UnitNames(code, opnames), r)
  {
    hide InlineCaches, WellLaid, UnitNames;
    ghost var names := UnitNames(code, opnames);
    var offset, last: nat := 0, 0;
    NothingLaid(names);
    while offset < |code|
      invariant offset % 2 == 0 && offset <= |code| && offset / 2 <= |names|
      invariant WellLaid(names[..offset / 2])
      invariant 0 < offset ==> EndsBefore(names, last, offset / 2)
    {
      KnownAt(code, opnames, offset);
      var name := opnames[code[offset]];
      NameAt(code, opnames, offset);
      if name == "CACHE" {
        Orphaned(names, last, offset / 2);
        return OwnerlessCache(offset);
      }
      var count := InlineCaches(name);
      r := ScanRun(code, opnames, cacheOpcode, offset, count);
      if r != Accepted {
        return;
      }
      WellLaidExtends(names, offset / 2);
      last := offset / 2;
      offset := offset + (count + 1) * 2;
    }
    assert names[..|code| / 2] == names;
    r := Accepted;
  }

  /** The inner loop: the caches of the instruction at `offset`. */
  method ScanRun(code: seq<Byte>, opnames: seq<string>, cacheOpcode: Byte, offset: nat, count: nat) returns (r: Verdict)
    requires |code| % 2 == 0 && AllKnown(code, opnames)
    requires cacheOpcode < |opnames|
    requires forall c :: 0 <= c < |opnames| ==> (opnames[c] == "CACHE" <==> c == cacheOpcode)
    requires offset % 2 == 0 && offset < |code|
    requires var names := UnitNames(code, opnames);
             && WellLaid(names[..offset / 2]) && names[offset / 2] != "CACHE"
             && count == InlineCaches(names[offset / 2])
    ensures var names := UnitNames(code, opnames);
            if r == Accepted then
              && offset / 2 + count < |names|
              && forall j :: offset / 2 < j <= offset / 2 + count ==> names[j] == "CACHE"
            else
              Justified(names, r)
  {
    hide InlineCaches, WellLaid, UnitNames;
    ghost var names := UnitNames(code, opnames);
    var i := offset / 2;
    for index := 1 to count + 1
      invariant forall j :: i < j < i + index ==> j < |names| && names[j] == "CACHE"
      invariant i + index - 1 < |names|
    {
      var at := offset + index * 2;
      assert at / 2 == i + index;
      if at < |code| {
        KnownAt(code, opnames, at);
        NameAt(code, opnames, at);
      }
      if at >= |code| || code[at] != cacheOpcode {
        Unserved(names, i, i + index);
        return MissingCache(offset, at);
      }
    }
    r := Accepted;
  }

  lemma KnownAt(code: seq<Byte>, opnames: seq<string>, at: nat)
    requires |code| % 2 == 0 && AllKnown(code, opnames) && at % 2 == 0 && at < |code|
    ensures code[at] < |opnames|
  {
    assert 2 * (at / 2) == at;
  }

  lemma NothingLaid(names: seq<string>)
    ensures WellLaid(names[..0])
  {
  }

  /** Whole code is accepted exactly when its units are known and well laid out. */
  method ValidateBytecode(code: seq<Byte>, opnames: seq<string>, cacheOpcode: Byte) returns (r: Verdict)
    requires cacheOpcode < |opnames|
    requires forall c :: 0 <= c < |opnames| ==> (opnames[c] == "CACHE" <==> c == cacheOpcode)
    ensures r == Accepted <==>
              |code| % 2 == 0 && AllKnown(code, opnames) && WellLaid(UnitNames(code, opnames))
    ensures r == OddLength <==> |code| % 2 == 1
    ensures r.UnknownOpcode? <==> |code| % 2 == 0 && !AllKnown(code, opnames)
    ensures r.UnknownOpcode? ==>
              r.offset < |code| && !Known(code[r.offset], opnames) && AllKnown(code[..r.offset], opnames)
    ensures r.OwnerlessCache? || r.MissingCache? ==> Justified(UnitNames(code, opnames), r)
  {
    hide WellLaid, UnitNames;
    if |code| % 2 == 1 {
      return OddLength;
    }
    r := ScanOpcodes(code, opnames);
    if r.UnknownOpcode? {
      assert code[2 * (r.offset / 2)] == code[r.offset];
      return;
    }
    r := ScanCaches(code, opnames, cacheOpcode);
  }

  // ---------- the normalizer's cache layout ----------

  /** A physical instruction; `jump` is the target offset of a jump. */
  datatype RawInstruction = RawInstruction(offset: int, name: string, jump: Option<int>)

  predicate IsCache(i: RawInstruction) {
    i.name == "CACHE"
  }

  predicate Increasing(raw: seq<RawInstruction>) {
    forall i, j :: 0 <= i < j < |raw| ==> raw[i].offset < raw[j].offset
  }

  predicate HasOffset(raw: seq<RawInstruction>, x: int) {
    exists k :: 0 <= k < |raw| && raw[k].offset == x
  }

  predicate HasInstruction(raw: seq<RawInstruction>, x: int) {
    exists k :: 0 <= k < |raw| && raw[k].offset == x && !IsCache(raw[k])
  }

  predicate HasCache(raw: seq<RawInstruction>, x: int) {
    exists k :: 0 <= k < |raw| && raw[k].offset == x && IsCache(raw[k])
  }

  predicate StartsWithOwner(raw: seq<RawInstruction>) {
    raw == [] || !IsCache(raw[0])
  }

  /** The nearest instruction at or before k that is not a cache. */
  function Owner(raw: seq<RawInstruction>, k: nat): (o: nat)
    requires StartsWithOwner(raw) && k < |raw|
    ensures o <= k && !IsCache(raw[o])
    ensures forall j :: o < j <= k ==> IsCache(raw[j])
  {
    if IsCache(raw[k]) then Owner(raw, k - 1) else k
  }

  /** The end of the run of caches that starts at i. */
  function RunEnd(raw: seq<RawInstruction>, i: nat): (e: nat)
    requires i <= |raw|
    ensures i <= e <= |raw| && (e < |raw| ==> !IsCache(raw[e]))
    ensures forall j :: i <= j < e ==> IsCache(raw[j])
    decreases |raw| - i
  {
    if i < |raw| && IsCache(raw[i]) then RunEnd(raw, i + 1) else i
  }

  function Offsets(raw: seq<RawInstruction>, i: nat, e: nat): (s: seq<int>)
    requires i <= e <= |raw|
    ensures |s| == e - i && forall j :: 0 <= j < |s| ==> s[j] == raw[i + j].offset
  {
    seq(e - i, j requires 0 <= j < e - i => raw[i + j].offset)
  }

  /** The caches of instruction k: all those up to the next instruction. */
  function CachesOf(raw: seq<RawInstruction>, k: nat): seq<int>
    requires k < |raw|
  {
    Offsets(raw, k + 1, RunEnd(raw, k + 1))
  }

  /** Each instruction lists its caches, and each cache names its owner, by offset. */
  ghost predicate LaysOut(raw: seq<RawInstruction>, caches: map<int, seq<int>>, owners: map<int, int>)
    requires StartsWithOwner(raw)
  {
    && (forall x :: x in caches <==> HasInstruction(raw, x))
    && (forall x :: x in owners <==> HasCache(raw, x))
    && (forall k {:trigger raw[k].offset in caches} {:trigger CachesOf(raw, k)} ::
          0 <= k < |raw| && !IsCache(raw[k]) ==>
            raw[k].offset in caches && caches[raw[k].offset] == CachesOf(raw, k))
    && (forall k {:trigger raw[k].offset in owners} {:trigger Owner(raw, k)} ::
          0 <= k < |raw| && IsCache(raw[k]) ==>
            raw[k].offset in owners && owners[raw[k].offset] == raw[Owner(raw, k)].offset)
  }

  datatype Layout = Ownerless(offset: int) | Layout(caches: map<int, seq<int>>, owners: map<int, int>)

  lemma OwnerIs(raw: seq<RawInstruction>, o: nat, k: nat)
    requires StartsWithOwner(raw) && o <= k < |raw| && !IsCache(raw[o])
    requires forall j :: o < j <= k ==> IsCache(raw[j])
    ensures Owner(raw, k) == o
  {
  }

  lemma CachesAre(raw: seq<RawInstruction>, k: nat, e: nat)
    requires k < e <= |raw| && (e < |raw| ==> !IsCache(raw[e]))
    requires forall j :: k < j < e ==> IsCache(raw[j])
    ensures CachesOf(raw, k) == Offsets(raw, k + 1, e)
  {
  }

  /** Progress: the caches of every owner before i; those of the owner at `last` up to i. */
  ghost predicate CachesRecorded(raw: seq<RawInstruction>, i: nat, last: nat, caches: map<int, seq<int>>)
    requires i <= |raw|
  {
    && (i > 0 ==>
          && last < i && !IsCache(raw[last]) && (forall j :: last < j < i ==> IsCache(raw[j]))
          && raw[last].offset in caches && caches[raw[last].offset] == Offsets(raw, last + 1, i))
    && (forall x :: x in caches ==> exists k :: 0 <= k < i && raw[k].offset == x && !IsCache(raw[k]))
    && (forall k {:trigger raw[k].offset in caches} {:trigger CachesOf(raw, k)} ::
          0 <= k < i && !IsCache(raw[k]) && k != last ==>
            raw[k].offset in caches && caches[raw[k].offset] == CachesOf(raw, k))
  }

  /** Progress: the owner of every cache before i. */
  ghost predicate OwnersRecorded(raw: seq<RawInstruction>, i: nat, owners: map<int, int>)
    requires i <= |raw|
  {
    && (forall x :: x in owners ==> HasCache(raw, x))
    && (StartsWithOwner(raw) ==>
          forall k :: 0 <= k < i && IsCache(raw[k]) ==>
            raw[k].offset in owners && owners[raw[k].offset] == raw[Owner(raw, k)].offset)
  }

  ghost predicate Recorded(raw: seq<RawInstruction>, i: nat, last: nat, caches: map<int, seq<int>>,
                           owners: map<int, int>)
    requires i <= |raw|
  {
    CachesRecorded(raw, i, last, caches) && OwnersRecorded(raw, i, owners)
  }

  lemma RecordCache(raw: seq<RawInstruction>, i: nat, last: nat, caches: map<int, seq<int>>)
    requires Increasing(raw) && 0 < i < |raw| && CachesRecorded(raw, i, last, caches) && IsCache(raw[i])
    ensures var o := raw[last].offset;
            CachesRecorded(raw, i + 1, last, caches[o := caches[o] + [raw[i].offset]])
  {
    hide CachesOf, IsCache;
    var o := raw[last].offset;
    assert Offsets(raw, last + 1, i) + [raw[i].offset] == Offsets(raw, last + 1, i + 1);
  }

  lemma RecordOwnerOfCache(raw: seq<RawInstruction>, i: nat, last: nat, caches: map<int, seq<int>>,
                           owners: map<int, int>)
    requires Increasing(raw) && StartsWithOwner(raw) && 0 < i < |raw| && Recorded(raw, i, last, caches, owners) &&
              IsCache(raw[i])
    ensures OwnersRecorded(raw, i + 1, owners[raw[i].offset := raw[last].offset])
  {
    hide CachesOf, Owner, Offsets, IsCache;
    OwnerIs(raw, last, i);
  }

  lemma RecordOwner(raw: seq<RawInstruction>, i: nat, last: nat, caches: map<int, seq<int>>)
    requires Increasing(raw) && i < |raw| && CachesRecorded(raw, i, last, caches) && !IsCache(raw[i])
    ensures raw[i].offset !in caches
    ensures CachesRecorded(raw, i + 1, i, caches[raw[i].offset := []])
  {
    hide CachesOf, IsCache;
    if i > 0 {
      CachesAre(raw, last, i);
    }
  }

  lemma KeepOwners(raw: seq<RawInstruction>, i: nat, owners: map<int, int>)
    requires i < |raw| && OwnersRecorded(raw, i, owners) && !IsCache(raw[i])
    ensures OwnersRecorded(raw, i + 1, owners)
  {
    hide Owner;
  }

  lemma RecordedLaysOut(raw: seq<RawInstruction>, last: nat, caches: map<int, seq<int>>, owners: map<int, int>)
    requires StartsWithOwner(raw) && Recorded(raw, |raw|, last, caches, owners)
    ensures LaysOut(raw, caches, owners)
  {
    hide CachesOf;
    if raw != [] {
      CachesAre(raw, last, |raw|);
    }
    forall k | 0 <= k < |raw| && !IsCache(raw[k]) ensures raw[k].offset in caches {
      var slots := CachesOf(raw, k);
    }
  }

  method CacheLayout(raw: seq<RawInstruction>) returns (r: Layout)
    requires Increasing(raw)
    ensures r.Layout? <==> StartsWithOwner(raw)
    ensures r.Ownerless? ==> r.offset == raw[0].offset
    ensures r.Layout? ==> LaysOut(raw, r.caches, r.owners)
  {
    hide CachesOf, CachesRecorded, OwnersRecorded;
    var caches: map<int, seq<int>> := map[];
    var owners: map<int, int> := map[];
    var owner: Option<int> := None;
    ghost var last: nat := 0;
    NothingRecorded(raw);
    for i := 0 to |raw|
      invariant owner.None? <==> i == 0
      invariant owner.Some? ==> last < i && owner.value == raw[last].offset && StartsWithOwner(raw)
      invariant owner.Some? ==> raw[last].offset in caches
      invariant Recorded(raw, i, last, caches, owners)
    {
      if IsCache(raw[i]) {
        if owner.None? {
          return Ownerless(raw[i].offset);
        }
        RecordCache(raw, i, last, caches);
        RecordOwnerOfCache(raw, i, last, caches, owners);
        caches := caches[owner.value := caches[owner.value] + [raw[i].offset]];
        owners := owners[raw[i].offset := owner.value];
      } else {
        RecordOwner(raw, i, last, caches);
        KeepOwners(raw, i, owners);
        owner := Some(raw[i].offset);
        if raw[i].offset !in caches {
          caches := caches[raw[i].offset := []];
        }
        last := i;
      }
    }
    RecordedLaysOut(raw, last, caches, owners);
    r := Layout(caches, owners);
  }

  lemma NothingRecorded(raw: seq<RawInstruction>)
    ensures Recorded(raw, 0, 0, map[], map[])
  {
  }

  // ---------- accepted bytecode ----------

  /** One instruction per code unit, named by its opcode: what the scanner checks of the decoder. */
  predicate Decodes(raw: seq<RawInstruction>, code: seq<Byte>, opnames: seq<string>) {
    && |raw| == |code| / 2
    && forall k :: 0 <= k < |raw| ==> raw[k].offset == 2 * k && raw[k].name == UnitNames(code, opnames)[k]
  }

  /** In accepted code every cache has an owner and every instruction its tabulated caches. */
  lemma AcceptedLayout(raw: seq<RawInstruction>, code: seq<Byte>, opnames: seq<string>)
    requires Decodes(raw, code, opnames)
    ensures WellLaid(UnitNames(code, opnames)) <==>
              && StartsWithOwner(raw)
              && forall k :: 0 <= k < |raw| && !IsCache(raw[k]) ==> |CachesOf(raw, k)| == InlineCaches(raw[k].name)
  {
    hide InlineCaches, UnitNames;
    var names := UnitNames(code, opnames);
    forall k | 0 <= k < |raw| && !IsCache(raw[k])
      ensures Served(names, k) <==> |CachesOf(raw, k)| == InlineCaches(raw[k].name)
    {
      var e := RunEnd(raw, k + 1);
      assert |CachesOf(raw, k)| == e - k - 1;
      assert e < |raw| ==> names[e] != "CACHE";
      var last := k + InlineCaches(raw[k].name);
      if last + 1 < e {
        assert IsCache(raw[last + 1]);
      }
    }
    if forall k :: 0 <= k < |raw| && !IsCache(raw[k]) ==> |CachesOf(raw, k)| == InlineCaches(raw[k].name) {
      forall k | 0 <= k < |names| ensures Served(names, k) {
      }
    }
  }

  // ---------- index maps ----------

  /** The positions of the instructions that are not caches. */
  function Semantic(raw: seq<RawInstruction>): (s: seq<nat>)
    ensures forall i :: 0 <= i < |s| ==> s[i] < |raw| && !IsCache(raw[s[i]])
    ensures forall i, j :: 0 <= i < j < |s| ==> s[i] < s[j]
  {
    if raw == [] then []
    else
      var n := |raw| - 1;
      var s := Semantic(raw[..n]);
      if IsCache(raw[n]) then s else s + [n]
  }

  /** The logical index of position k: how many instructions before it are not caches. */
  function Rank(raw: seq<RawInstruction>, k: nat): nat
    requires k <= |raw|
  {
    |Semantic(raw[..k])|
  }

  /** The logical index of position k; that of its owner for a cache. */
  function LogicalIndex(raw: seq<RawInstruction>, k: nat): nat
    requires StartsWithOwner(raw) && k < |raw|
  {
    Rank(raw, Owner(raw, k))
  }

  lemma {:induction false} RankPlaces(raw: seq<RawInstruction>, k: nat)
    requires k < |raw| && !IsCache(raw[k])
    ensures Rank(raw, k) < |Semantic(raw)| && Semantic(raw)[Rank(raw, k)] == k
  {
    var n := |raw| - 1;
    if k < n {
      RankPlaces(raw[..n], k);
      assert raw[..n][..k] == raw[..k];
    }
  }

  lemma {:induction false} RankGrows(raw: seq<RawInstruction>, i: nat)
    requires i < |raw|
    ensures Rank(raw, i + 1) == Rank(raw, i) + if IsCache(raw[i]) then 0 else 1
    ensures Semantic(raw[..i + 1]) == Semantic(raw[..i]) + if IsCache(raw[i]) then [] else [i]
  {
    assert raw[..i + 1][..i] == raw[..i];
  }

  /**
   The maps of a normalized stream: logical indices count the instructions that are not caches,
   and a cache shares the index of its owner.
   */
  ghost predicate Indexed(raw: seq<RawInstruction>, physicalToLogical: map<int, nat>, logicalToPhysical: map<nat, int>,
                          cacheOwner: map<int, nat>)
    requires StartsWithOwner(raw)
  {
    && (forall i :: i in logicalToPhysical <==> 0 <= i < |Semantic(raw)|)
    && (forall i :: 0 <= i < |Semantic(raw)| ==>
         i in logicalToPhysical && logicalToPhysical[i] == raw[Semantic(raw)[i]].offset)
    && (forall x :: x in physicalToLogical <==> HasOffset(raw, x))
    && (forall k {:trigger raw[k].offset in physicalToLogical} {:trigger LogicalIndex(raw, k)} :: 0 <= k < |raw| ==>
          raw[k].offset in physicalToLogical && physicalToLogical[raw[k].offset] == LogicalIndex(raw, k))
    && (forall x :: x in cacheOwner <==> HasCache(raw, x))
    && (forall k {:trigger raw[k].offset in cacheOwner} {:trigger LogicalIndex(raw, k)} ::
          0 <= k < |raw| && IsCache(raw[k]) ==>
            raw[k].offset in cacheOwner && cacheOwner[raw[k].offset] == LogicalIndex(raw, k))
  }

  /** Logical and physical indices of instructions are inverse to each other and increasing. */
  lemma MapsInverse(raw: seq<RawInstruction>, physicalToLogical: map<int, nat>, logicalToPhysical: map<nat, int>,
                    cacheOwner: map<int, nat>)
    requires StartsWithOwner(raw) && Increasing(raw) && Indexed(raw, physicalToLogical, logicalToPhysical, cacheOwner)
    ensures forall i :: i in logicalToPhysical ==>
              logicalToPhysical[i] in physicalToLogical && physicalToLogical[logicalToPhysical[i]] == i
    ensures forall k :: 0 <= k < |raw| && !IsCache(raw[k]) ==>
              physicalToLogical[raw[k].offset] in logicalToPhysical
              && logicalToPhysical[physicalToLogical[raw[k].offset]] == raw[k].offset
    ensures forall i, j :: i in logicalToPhysical && j in logicalToPhysical && i < j ==>
              logicalToPhysical[i] < logicalToPhysical[j]
  {
    hide Owner, Rank, Semantic, IsCache, HasOffset, HasCache;
    forall i | i in logicalToPhysical
      ensures logicalToPhysical[i] in physicalToLogical && physicalToLogical[logicalToPhysical[i]] == i
    {
      var k := Semantic(raw)[i];
      OwnerIs(raw, k, k);
      RankPlaces(raw, k);
      SemanticOnce(raw, i, Rank(raw, k));
    }
    forall k | 0 <= k < |raw| && !IsCache(raw[k])
      ensures physicalToLogical[raw[k].offset] in logicalToPhysical
              && logicalToPhysical[physicalToLogical[raw[k].offset]] == raw[k].offset
    {
      OwnerIs(raw, k, k);
      RankPlaces(raw, k);
    }
  }

  lemma SemanticOnce(raw: seq<RawInstruction>, i: nat, j: nat)
    requires i < |Semantic(raw)| && j < |Semantic(raw)| && Semantic(raw)[i] == Semantic(raw)[j]
    ensures i == j
  {
  }

  /** A cache has the index of the last instruction before it that is not a cache. */
  lemma CacheMapsToNearestOwner(raw: seq<RawInstruction>, physicalToLogical: map<int, nat>,
                                logicalToPhysical: map<nat, int>, cacheOwner: map<int, nat>, k: nat)
    requires StartsWithOwner(raw) && Increasing(raw) && Indexed(raw, physicalToLogical, logicalToPhysical, cacheOwner)
    requires k < |raw| && IsCache(raw[k])
    ensures var owner := cacheOwner[raw[k].offset];
            && physicalToLogical[raw[k].offset] == owner && owner in logicalToPhysical
            && logicalToPhysical[owner] < raw[k].offset
            && forall i :: i in logicalToPhysical && logicalToPhysical[i] < raw[k].offset ==> i <= owner
  {
    hide Owner, Rank, Semantic;
    assert raw[k].offset in cacheOwner && raw[k].offset in physicalToLogical;
    var o := Owner(raw, k);
    RankPlaces(raw, o);
    forall i | i in logicalToPhysical && logicalToPhysical[i] < raw[k].offset
      ensures i <= Rank(raw, o)
    {
      var p := Semantic(raw)[i];
      NotBetween(raw, o, k, p);
    }
  }

  lemma NotBetween(raw: seq<RawInstruction>, o: nat, k: nat, p: nat)
    requires Increasing(raw) && o < k < |raw| && p < |raw| && !IsCache(raw[p])
    requires forall j :: o < j <= k ==> IsCache(raw[j])
    ensures raw[p].offset < raw[k].offset ==> p <= o
  {
    if p > k {
      assert raw[k].offset < raw[p].offset;
    }
  }

  // ---------- the normalizer ----------

  datatype Normalization =
    | OwnerlessSlot(offset: int)
    | UnknownInstruction(offset: int)
    | InvalidTarget(offset: int, target: int)
    | TargetsCache(offset: int, target: int)
    | Normalized(targets: seq<Option<nat>>, caches: seq<seq<int>>)

  /** A jump lands on an instruction that is not a cache. */
  predicate LandsWell(raw: seq<RawInstruction>, i: RawInstruction) {
    i.jump.Some? ==> HasInstruction(raw, i.jump.value)
  }

  /** The logical index of a jump is that of the instruction at its target offset. */
  ghost predicate Targets(raw: seq<RawInstruction>, target: Option<nat>, i: RawInstruction) {
    match i.jump
    case None => target == None
    case Some(x) =>
      target.Some? && target.value < |Semantic(raw)| && raw[Semantic(raw)[target.value]].offset == x
  }

  /** Progress: the first i instructions are mapped. */
  ghost predicate InstructionsMapped(raw: seq<RawInstruction>, semantic: seq<nat>, i: nat,
                                     physicalToLogical: map<int, nat>, logicalToPhysical: map<nat, int>)
    requires i <= |semantic| && forall j :: 0 <= j < |semantic| ==> semantic[j] < |raw|
  {
    && (forall j :: j in logicalToPhysical <==> 0 <= j < i)
    && (forall j :: 0 <= j < i ==> logicalToPhysical[j] == raw[semantic[j]].offset)
    && (forall x :: x in physicalToLogical ==> HasOffset(raw, x))
    && (forall j :: 0 <= j < i ==>
          raw[semantic[j]].offset in physicalToLogical && physicalToLogical[raw[semantic[j]].offset] == j)
  }

  lemma MapInstruction(raw: seq<RawInstruction>, semantic: seq<nat>, i: nat,
                       physicalToLogical: map<int, nat>, logicalToPhysical: map<nat, int>)
    requires i < |semantic| && (forall j :: 0 <= j < |semantic| ==> semantic[j] < |raw|)
    requires Increasing(raw) && forall j, k :: 0 <= j < k < |semantic| ==> semantic[j] < semantic[k]
    requires InstructionsMapped(raw, semantic, i, physicalToLogical, logicalToPhysical)
    ensures var x := raw[semantic[i]].offset;
            InstructionsMapped(raw, semantic, i + 1, physicalToLogical[x := i], logicalToPhysical[i := x])
  {
  }

  /** Progress: all instructions and the caches before k are mapped. */
  ghost predicate CachesMapped(raw: seq<RawInstruction>, k: nat, physicalToLogical: map<int, nat>,
                               cacheOwner: map<int, nat>)
    requires StartsWithOwner(raw) && k <= |raw|
  {
    && (forall x :: x in physicalToLogical ==> HasOffset(raw, x))
    && (forall j {:trigger raw[j].offset in physicalToLogical} {:trigger LogicalIndex(raw, j)} ::
          0 <= j < |raw| && (j < k || !IsCache(raw[j])) ==>
          raw[j].offset in physicalToLogical && physicalToLogical[raw[j].offset] == LogicalIndex(raw, j))
    && (forall x :: x in cacheOwner ==> HasCache(raw, x))
    && (forall j {:trigger raw[j].offset in cacheOwner} {:trigger LogicalIndex(raw, j)} ::
          0 <= j < k && IsCache(raw[j]) ==>
            raw[j].offset in cacheOwner && cacheOwner[raw[j].offset] == LogicalIndex(raw, j))
  }

  lemma StartCaches(raw: seq<RawInstruction>, physicalToLogical: map<int, nat>, logicalToPhysical: map<nat, int>)
    requires StartsWithOwner(raw) && Increasing(raw)
    requires InstructionsMapped(raw, Semantic(raw), |Semantic(raw)|, physicalToLogical, logicalToPhysical)
    ensures CachesMapped(raw, 0, physicalToLogical, map[])
  {
    hide Owner, Semantic, Rank, IsCache;
    forall j | 0 <= j < |raw| && !IsCache(raw[j])
      ensures raw[j].offset in physicalToLogical && physicalToLogical[raw[j].offset] == LogicalIndex(raw, j)
    {
      OwnerIs(raw, j, j);
      RankPlaces(raw, j);
    }
  }

  lemma SameIndex(raw: seq<RawInstruction>, k: nat)
    requires StartsWithOwner(raw) && k < |raw|
    ensures LogicalIndex(raw, Owner(raw, k)) == LogicalIndex(raw, k)
  {
    OwnerIs(raw, Owner(raw, k), Owner(raw, k));
  }

  lemma MapCache(raw: seq<RawInstruction>, k: nat, index: nat, physicalToLogical: map<int, nat>,
                 cacheOwner: map<int, nat>)
    requires StartsWithOwner(raw) && Increasing(raw) && k < |raw| && CachesMapped(raw, k, physicalToLogical, cacheOwner)
    requires IsCache(raw[k]) && index == LogicalIndex(raw, k) && HasOffset(raw, raw[k].offset) &&
              HasCache(raw, raw[k].offset)
    ensures CachesMapped(raw, k + 1, physicalToLogical[raw[k].offset := index], cacheOwner[raw[k].offset := index])
  {
    hide LogicalIndex, IsCache, HasOffset, HasCache;
  }

  lemma OwnerMapped(raw: seq<RawInstruction>, k: nat, physicalToLogical: map<int, nat>, cacheOwner: map<int, nat>)
    requires StartsWithOwner(raw) && k < |raw| && CachesMapped(raw, k, physicalToLogical, cacheOwner)
    ensures var o := raw[Owner(raw, k)].offset;
            o in physicalToLogical && physicalToLogical[o] == LogicalIndex(raw, k)
    ensures HasOffset(raw, raw[k].offset) && (IsCache(raw[k]) ==> HasCache(raw, raw[k].offset))
    ensures !IsCache(raw[k]) ==> CachesMapped(raw, k + 1, physicalToLogical, cacheOwner)
  {
    hide LogicalIndex, Owner;
    SameIndex(raw, k);
  }

  /** All instructions before position k are known and land well. */
  predicate GoodBefore(raw: seq<RawInstruction>, known: set<string>, k: nat)
    requires k <= |raw|
  {
    forall j :: 0 <= j < k && !IsCache(raw[j]) ==> raw[j].name in known && LandsWell(raw, raw[j])
  }

  predicate NamesKnown(raw: seq<RawInstruction>, known: set<string>) {
    forall j :: 0 <= j < |raw| && !IsCache(raw[j]) ==> raw[j].name in known
  }

  /** The jump at position k is the first that lands badly. */
  predicate FirstBadJump(raw: seq<RawInstruction>, known: set<string>, k: nat, offset: int, target: int) {
    && k < |raw| && !IsCache(raw[k]) && raw[k].offset == offset && raw[k].jump == Some(target)
    && !HasInstruction(raw, target) && GoodBefore(raw, known, k)
  }

  /** What each result says; exactly one holds, and errors are the first in the source's order. */
  ghost predicate Explained(raw: seq<RawInstruction>, known: set<string>, r: Normalization) {
    match r
    case OwnerlessSlot(offset) => !StartsWithOwner(raw) && offset == raw[0].offset
    case UnknownInstruction(offset) =>
      && StartsWithOwner(raw)
      && exists k :: 0 <= k < |raw| && raw[k].offset == offset && !IsCache(raw[k]) && raw[k].name !in known
                     && NamesKnown(raw[..k], known)
    case InvalidTarget(offset, target) =>
      && StartsWithOwner(raw) && NamesKnown(raw, known) && !HasOffset(raw, target)
      && exists k: nat :: FirstBadJump(raw, known, k, offset, target)
    case TargetsCache(offset, target) =>
      && StartsWithOwner(raw) && NamesKnown(raw, known) && HasCache(raw, target)
      && exists k: nat :: FirstBadJump(raw, known, k, offset, target)
    case Normalized(targets, caches) =>
      && StartsWithOwner(raw) && GoodBefore(raw, known, |raw|)
      && |targets| == |caches| == |Semantic(raw)|
      && forall i :: 0 <= i < |targets| ==>
           Targets(raw, targets[i], raw[Semantic(raw)[i]]) && caches[i] == CachesOf(raw, Semantic(raw)[i])
  }

  class IndexMaps {
    var physicalToLogical: map<int, nat>
    var logicalToPhysical: map<nat, int>
    var cacheOwner: map<int, nat>

    constructor ()
      ensures physicalToLogical == map[] && logicalToPhysical == map[] && cacheOwner == map[]
    {
      physicalToLogical, logicalToPhysical, cacheOwner := map[], map[], map[];
    }

    /** Instructions first, then caches through their owners, in the order the owners were recorded. */
    method Fill(raw: seq<RawInstruction>, semantic: seq<nat>, ghost caches: map<int, seq<int>>, owners: map<int, int>)
      returns (offsetToIndex: map<int, nat>)
      requires StartsWithOwner(raw) && Increasing(raw) && semantic == Semantic(raw) && LaysOut(raw, caches, owners)
      modifies this
      ensures Indexed(raw, physicalToLogical, logicalToPhysical, cacheOwner)
      ensures InstructionsMapped(raw, semantic, |semantic|, offsetToIndex, logicalToPhysical)
    {
      hide InstructionsMapped, CachesMapped, Semantic, CachesOf, Owner, Rank, LaysOut, Indexed;
      physicalToLogical, logicalToPhysical, cacheOwner := map[], map[], map[];
      NothingMapped(raw);
      for i := 0 to |semantic|
        invariant InstructionsMapped(raw, semantic, i, physicalToLogical, logicalToPhysical)
        invariant cacheOwner == map[]
      {
        MapInstruction(raw, semantic, i, physicalToLogical, logicalToPhysical);
        physicalToLogical := physicalToLogical[raw[semantic[i]].offset := i];
        logicalToPhysical := logicalToPhysical[i := raw[semantic[i]].offset];
      }
      offsetToIndex := physicalToLogical;
      StartCaches(raw, physicalToLogical, logicalToPhysical);
      for k := 0 to |raw|
        invariant CachesMapped(raw, k, physicalToLogical, cacheOwner)
        invariant InstructionsMapped(raw, semantic, |semantic|, offsetToIndex, logicalToPhysical)
      {
        OwnerMapped(raw, k, physicalToLogical, cacheOwner);
        OwnersListed(raw, caches, owners, k);
        if raw[k].offset in owners {
          var index := physicalToLogical[owners[raw[k].offset]];
          MapCache(raw, k, index, physicalToLogical, cacheOwner);
          physicalToLogical := physicalToLogical[raw[k].offset := index];
          cacheOwner := cacheOwner[raw[k].offset := index];
        }
      }
      AllMapped(raw, offsetToIndex, physicalToLogical, logicalToPhysical, cacheOwner);
    }

    /** Lay out the caches, number the instructions, fill the maps and resolve the jumps. */
    method Normalize(raw: seq<RawInstruction>, known: set<string>) returns (r: Normalization)
      requires Increasing(raw)
      modifies this
      ensures Explained(raw, known, r)
      ensures r.Normalized? <==> StartsWithOwner(raw) && GoodBefore(raw, known, |raw|)
      ensures r.Normalized? ==> StartsWithOwner(raw) && Indexed(raw, physicalToLogical, logicalToPhysical, cacheOwner)
    {
      hide LaysOut, CachesOf, Indexed, InstructionsMapped;
      var layout := CacheLayout(raw);
      if layout.Ownerless? {
        return OwnerlessSlot(layout.offset);
      }
      cacheOwner := map[];
      var unknown, semantic := FindSemantic(raw, known);
      if unknown.Some? {
        return UnknownInstruction(unknown.value);
      }
      var offsetToIndex := Fill(raw, semantic, layout.caches, layout.owners);
      r := ResolveJumps(raw, known, semantic, layout.caches, layout.owners, offsetToIndex, logicalToPhysical);
      if !r.Normalized? {
        ErrorsAreReal(raw, known, r);
      }
    }
  }

  lemma ErrorsAreReal(raw: seq<RawInstruction>, known: set<string>, r: Normalization)
    requires Explained(raw, known, r) && (r.InvalidTarget? || r.TargetsCache?)
    ensures !GoodBefore(raw, known, |raw|)
  {
    hide HasInstruction, IsCache;
    var k: nat :| FirstBadJump(raw, known, k, r.offset, r.target);
    assert !LandsWell(raw, raw[k]);
  }

  /** The instructions that are not caches, unless one is unknown. */
  method FindSemantic(raw: seq<RawInstruction>, known: set<string>) returns (unknown: Option<int>, semantic: seq<nat>)
    ensures unknown.None? ==> semantic == Semantic(raw) && NamesKnown(raw, known)
    ensures unknown.Some? ==>
              exists k :: 0 <= k < |raw| && raw[k].offset == unknown.value && !IsCache(raw[k]) && raw[k].name !in known
                          && NamesKnown(raw[..k], known)
  {
    hide Semantic;
    semantic := [];
    NothingSemantic();
    for k := 0 to |raw|
      invariant semantic == Semantic(raw[..k]) && NamesKnown(raw[..k], known)
    {
      RankGrows(raw, k);
      if !IsCache(raw[k]) {
        if raw[k].name !in known {
          return Some(raw[k].offset), semantic;
        }
        semantic := semantic + [k];
      }
    }
    assert raw[..|raw|] == raw;
    unknown := None;
  }

  lemma NothingSemantic()
    ensures forall raw: seq<RawInstruction> :: Semantic(raw[..0]) == []
  {
  }

  method ResolveJumps(raw: seq<RawInstruction>, known: set<string>, semantic: seq<nat>, caches: map<int, seq<int>>,
                      owners: map<int, int>, offsetToIndex: map<int, nat>, ghost logicalToPhysical: map<nat, int>)
    returns (r: Normalization)
    requires Increasing(raw) && StartsWithOwner(raw) && semantic == Semantic(raw) && LaysOut(raw, caches, owners)
    requires NamesKnown(raw, known)
    requires InstructionsMapped(raw, semantic, |semantic|, offsetToIndex, logicalToPhysical)
    ensures Explained(raw, known, r) && (r.Normalized? || r.InvalidTarget? || r.TargetsCache?)
  {
    hide LaysOut, CachesOf, InstructionsMapped, Semantic, LandsWell, NamesKnown, HasOffset, HasCache, HasInstruction;
    hide GoodBefore, Increasing;
    var physical := PhysicalOffsets(raw);
    var targets: seq<Option<nat>> := [];
    var slots: seq<seq<int>> := [];
    for i := 0 to |semantic|
      invariant |targets| == |slots| == i
      invariant forall j :: 0 <= j < i ==>
                  Targets(raw, targets[j], raw[semantic[j]]) && slots[j] == CachesOf(raw, semantic[j])
      invariant forall j :: 0 <= j < i ==> LandsWell(raw, raw[semantic[j]])
    {
      var instruction := raw[semantic[i]];
      var target: Option<nat> := None;
      if instruction.jump.Some? {
        var x := instruction.jump.value;
        Landing(raw, semantic, caches, owners, offsetToIndex, logicalToPhysical, x);
        GoodSoFar(raw, known, i);
        if x !in physical {
          assert FirstBadJump(raw, known, semantic[i], instruction.offset, x);
          return InvalidTarget(instruction.offset, x);
        }
        if x in owners {
          assert FirstBadJump(raw, known, semantic[i], instruction.offset, x);
          return TargetsCache(instruction.offset, x);
        }
        target := Some(offsetToIndex[x]);
      }
      Landed(raw, instruction);
      SlotsOf(raw, caches, owners, semantic[i]);
      targets := targets + [target];
      slots := slots + [caches[instruction.offset]];
    }
    AllLand(raw, known);
    r := Normalized(targets, slots);
  }

  method PhysicalOffsets(raw: seq<RawInstruction>) returns (physical: set<int>)
    ensures forall x :: x in physical <==> HasOffset(raw, x)
  {
    physical := set i | i in raw :: i.offset;
  }

  lemma Landed(raw: seq<RawInstruction>, i: RawInstruction)
    ensures i.jump.None? || HasInstruction(raw, i.jump.value) <==> LandsWell(raw, i)
  {
  }

  /** An offset is invalid, a cache, or an instruction with a logical index. */
  lemma Landing(raw: seq<RawInstruction>, semantic: seq<nat>, caches: map<int, seq<int>>, owners: map<int, int>,
                offsetToIndex: map<int, nat>, logicalToPhysical: map<nat, int>, x: int)
    requires Increasing(raw) && StartsWithOwner(raw) && semantic == Semantic(raw) && LaysOut(raw, caches, owners)
    requires InstructionsMapped(raw, semantic, |semantic|, offsetToIndex, logicalToPhysical)
    ensures !HasOffset(raw, x) ==> !HasInstruction(raw, x)
    ensures x in owners ==> HasCache(raw, x) && !HasInstruction(raw, x)
    ensures HasOffset(raw, x) && x !in owners ==>
              && HasInstruction(raw, x) && x in offsetToIndex && offsetToIndex[x] < |semantic|
              && raw[semantic[offsetToIndex[x]]].offset == x
  {
    hide Semantic, CachesOf, Owner;
    if k :| 0 <= k < |raw| && raw[k].offset == x && !IsCache(raw[k]) {
      RankPlaces(raw, k);
    }
  }

  lemma SlotsOf(raw: seq<RawInstruction>, caches: map<int, seq<int>>, owners: map<int, int>, k: nat)
    requires StartsWithOwner(raw) && LaysOut(raw, caches, owners) && k < |raw| && !IsCache(raw[k])
    ensures raw[k].offset in caches && caches[raw[k].offset] == CachesOf(raw, k)
  {
    hide CachesOf;
  }

  lemma GoodSoFar(raw: seq<RawInstruction>, known: set<string>, i: nat)
    requires i < |Semantic(raw)| && NamesKnown(raw, known)
    requires forall j :: 0 <= j < i ==> LandsWell(raw, raw[Semantic(raw)[j]])
    ensures GoodBefore(raw, known, Semantic(raw)[i])
  {
    hide Semantic, LandsWell, Rank;
    forall k | 0 <= k < Semantic(raw)[i] && !IsCache(raw[k])
      ensures LandsWell(raw, raw[k])
    {
      RankPlaces(raw, k);
      SemanticOrder(raw, Rank(raw, k), i);
    }
  }

  lemma SemanticOrder(raw: seq<RawInstruction>, i: nat, j: nat)
    requires i < |Semantic(raw)| && j < |Semantic(raw)| && Semantic(raw)[i] < Semantic(raw)[j]
    ensures i < j
  {
  }

  lemma AllLand(raw: seq<RawInstruction>, known: set<string>)
    requires NamesKnown(raw, known)
    requires forall j :: 0 <= j < |Semantic(raw)| ==> LandsWell(raw, raw[Semantic(raw)[j]])
    ensures GoodBefore(raw, known, |raw|)
  {
    hide Semantic, LandsWell, Rank;
    forall k | 0 <= k < |raw| && !IsCache(raw[k])
      ensures LandsWell(raw, raw[k])
    {
      RankPlaces(raw, k);
    }
  }

  lemma NothingMapped(raw: seq<RawInstruction>)
    ensures InstructionsMapped(raw, Semantic(raw), 0, map[], map[])
  {
  }

  lemma OwnersListed(raw: seq<RawInstruction>, caches: map<int, seq<int>>, owners: map<int, int>, k: nat)
    requires StartsWithOwner(raw) && Increasing(raw) && LaysOut(raw, caches, owners) && k < |raw|
    ensures raw[k].offset in owners <==> IsCache(raw[k])
    ensures IsCache(raw[k]) ==> owners[raw[k].offset] == raw[Owner(raw, k)].offset
  {
    hide Owner, CachesOf;
  }

  lemma AllMapped(raw: seq<RawInstruction>, instructionsOnly: map<int, nat>, physicalToLogical: map<int, nat>,
                  logicalToPhysical: map<nat, int>, cacheOwner: map<int, nat>)
    requires StartsWithOwner(raw) && CachesMapped(raw, |raw|, physicalToLogical, cacheOwner)
    requires InstructionsMapped(raw, Semantic(raw), |Semantic(raw)|, instructionsOnly, logicalToPhysical)
    ensures Indexed(raw, physicalToLogical, logicalToPhysical, cacheOwner)
  {
    hide LogicalIndex, Semantic;
  }
}
