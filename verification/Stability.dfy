/**
 What patching and appending leave alone.  Writing immutable values into validated push payloads, or
 appending bytes after the code, keeps the instruction stream and its jump destinations.
 */
module Stability {
  import opened Options
  import opened Arith
  import opened Words
  import opened Bytecode

  /** One patch site as a layout lists it. */
  datatype Site = Site(offset: int, length: int, key: string)

  datatype SiteError = BadKey | BadLength | NotAPayload | Overlap

  type SiteMap = map<int, (int, string)>

  datatype Validation = Accepted(sites: SiteMap) | Rejected(index: nat, error: SiteError)

  /** `off` is the first payload byte of a complete PUSH20 or PUSH32 with that many payload bytes. */
  ghost predicate IsPayload(code: seq<Byte>, off: int, length: int) {
    PayloadAmong(Stream(code, 0), |Stream(code, 0)|, off, length)
  }

  ghost predicate PayloadAmong(ins: seq<Instruction>, n: nat, off: int, length: int)
    requires n <= |ins|
  {
    exists i :: 0 <= i < n && PayloadOf(ins[i], off, length)
  }

  predicate Maps(starts: map<int, int>, off: int, length: int) {
    off in starts && starts[off] == length
  }

  predicate PayloadOf(ins: Instruction, off: int, length: int) {
    (ins.opcode == 0x73 || ins.opcode == 0x7F) && ins.complete && ins.pc + 1 == off && ins.width == length
  }

  ghost predicate GoodSite(code: seq<Byte>, site: Site) {
    site.key != "" && (site.length == 20 || site.length == 32) && IsPayload(code, site.offset, site.length)
  }

  /** The layouts that validation accepts. */
  ghost predicate GoodLayout(code: seq<Byte>, raw: seq<Site>) {
    && (forall i :: 0 <= i < |raw| ==> GoodSite(code, raw[i]))
    && (forall i, j :: 0 <= i < j < |raw| ==> raw[i].offset != raw[j].offset)
  }

  method PayloadStarts(code: seq<Byte>) returns (starts: map<int, int>)
    ensures forall off, length :: Maps(starts, off, length) <==> IsPayload(code, off, length)
  {
    var ins := Disassemble(code);
    starts := map[];
    StreamTiles(code, 0);
    for n := 0 to |ins|
      invariant forall off, length :: Maps(starts, off, length) <==> PayloadAmong(ins, n, off, length)
    {
      ghost var before := starts;
      if (ins[n].opcode == 0x73 || ins[n].opcode == 0x7F) && ins[n].complete {
        starts := starts[ins[n].pc + 1 := ins[n].width];
      }
      forall off, length ensures Maps(starts, off, length) <==> PayloadAmong(ins, n + 1, off, length) {
        PayloadStep(ins, n, before, off, length);
      }
    }
  }

  lemma {:induction false} PayloadStep(ins: seq<Instruction>, n: nat, before: map<int, int>, off: int, length: int)
    requires n < |ins| && (forall i :: 0 <= i < n ==> ins[i].pc < ins[n].pc)
    requires forall off, length :: Maps(before, off, length) <==> PayloadAmong(ins, n, off, length)
    ensures var push := (ins[n].opcode == 0x73 || ins[n].opcode == 0x7F) && ins[n].complete;
            var starts := if push then before[ins[n].pc + 1 := ins[n].width] else before;
            Maps(starts, off, length) <==> PayloadAmong(ins, n + 1, off, length)
  {
    assert Maps(before, off, length) <==> PayloadAmong(ins, n, off, length);
    if PayloadAmong(ins, n, off, length) {
      var i :| 0 <= i < n && PayloadOf(ins[i], off, length);
      assert 0 <= i < n + 1;
    }
    assert PayloadAmong(ins, n + 1, off, length) <==> PayloadAmong(ins, n, off, length) || PayloadOf(ins[n], off, length);
  }

  /** Distinct payloads never overlap. */
  lemma {:induction false} PayloadsAreDisjoint(code: seq<Byte>, a: int, la: int, b: int, lb: int)
    requires IsPayload(code, a, la) && IsPayload(code, b, lb) && a != b
    ensures a + la <= b || b + lb <= a
  {
    var ins := Stream(code, 0);
    var i :| 0 <= i < |ins| && PayloadOf(ins[i], a, la);
    var j :| 0 <= j < |ins| && PayloadOf(ins[j], b, lb);
    if i < j {
      Successor(code, i, j);
    } else {
      Successor(code, j, i);
    }
  }

  /** A later instruction starts after the payload of an earlier one. */
  lemma {:induction false} Successor(code: seq<Byte>, i: nat, j: nat)
    requires i < j < |Stream(code, 0)|
    ensures Stream(code, 0)[i].pc + Stream(code, 0)[i].Size() <= Stream(code, 0)[j].pc
    decreases j
  {
    StreamTiles(code, 0);
    if i + 1 < j {
      Successor(code, i, j - 1);
    }
  }

  /**
   Validation accepts exactly the good layouts and returns their sites; its overlap test, the last of
   its tests, never finds anything.
   */
  method ValidateImmutableSites(raw: seq<Site>, code: seq<Byte>) returns (r: Validation)
    ensures r.Accepted? <==> GoodLayout(code, raw)
    ensures r.Accepted? ==> forall off, length, key ::
              off in r.sites && r.sites[off] == (length, key) <==> Site(off, length, key) in raw
    ensures r.Rejected? ==> r.error != Overlap
  {
    var starts := PayloadStarts(code);
    var sites: SiteMap := map[];
    for n := 0 to |raw|
      invariant GoodLayout(code, raw[..n])
      invariant forall off, length, key ::
        off in sites && sites[off] == (length, key) <==> Site(off, length, key) in raw[..n]
    {
      var site := raw[n];
      assert raw[..n + 1] == raw[..n] + [site];
      if site.key == "" {
        BadPrefix(code, raw, n);
        return Rejected(n, BadKey);
      }
      if site.length != 20 && site.length != 32 {
        BadPrefix(code, raw, n);
        return Rejected(n, BadLength);
      }
      if site.offset in sites {
        var known := sites[site.offset];
        assert Site(site.offset, known.0, known.1) in raw[..n];
        return Rejected(n, NotAPayload);
      }
      assert Maps(starts, site.offset, site.length) <==> IsPayload(code, site.offset, site.length);
      if site.offset !in starts || starts[site.offset] != site.length {
        BadPrefix(code, raw, n);
        return Rejected(n, NotAPayload);
      }
      ghost var known := sites;
      forall previous | previous in sites ensures !Overlaps(site, previous, sites[previous].0) {
        var (length, key) := sites[previous];
        assert Site(previous, length, key) in raw[..n];
        PayloadsAreDisjoint(code, site.offset, site.length, previous, length);
      }
      var rejection := Rejected(n, Overlap);
      if exists previous :: previous in sites && Overlaps(site, previous, sites[previous].0) {
        return rejection;
      }
      sites := sites[site.offset := (site.length, site.key)];
      LayoutStep(code, raw, n, known);
    }
    assert raw[..|raw|] == raw;
    return Accepted(sites);
  }

  predicate Overlaps(site: Site, previous: int, width: int) {
    !(site.offset + site.length <= previous || previous + width <= site.offset)
  }

  lemma {:induction false} BadPrefix(code: seq<Byte>, raw: seq<Site>, n: nat)
    requires n < |raw| && !GoodSite(code, raw[n])
    ensures !GoodLayout(code, raw)
  {
  }

  lemma {:induction false} LayoutStep(code: seq<Byte>, raw: seq<Site>, n: nat, sites: SiteMap)
    requires n < |raw| && GoodLayout(code, raw[..n]) && GoodSite(code, raw[n]) && raw[n].offset !in sites
    requires forall off, length, key ::
      off in sites && sites[off] == (length, key) <==> Site(off, length, key) in raw[..n]
    ensures GoodLayout(code, raw[..n + 1])
    ensures var sites' := sites[raw[n].offset := (raw[n].length, raw[n].key)];
            forall off, length, key ::
              off in sites' && sites'[off] == (length, key) <==> Site(off, length, key) in raw[..n + 1]
  {
    hide GoodSite;
    var all := raw[..n + 1];
    assert all == raw[..n] + [raw[n]];
    forall i, j | 0 <= i < j < |all| ensures all[i].offset != all[j].offset {
      if j == n {
        var s := raw[..n][i];
        assert Site(s.offset, s.length, s.key) in raw[..n];
      } else {
        assert all[i] == raw[..n][i] && all[j] == raw[..n][j];
      }
    }
    forall i | 0 <= i < |all| ensures GoodSite(code, all[i]) {
      assert i < n ==> all[i] == raw[..n][i];
    }
  }

  // ----- same opcodes, same stream -----

  /** The same instruction up to its immediate data. */
  predicate SameShape(a: Instruction, b: Instruction) {
    a.pc == b.pc && a.opcode == b.opcode && a.width == b.width && a.complete == b.complete
    && a.argument.Some? == b.argument.Some?
  }

  ghost predicate SameOpcodes(code: seq<Byte>, code': seq<Byte>, ins: seq<Instruction>) {
    forall i :: 0 <= i < |ins| ==> ins[i].pc < |code| && ins[i].pc < |code'| && code'[ins[i].pc] == code[ins[i].pc]
  }

  /** Instruction by instruction the same up to immediate data. */
  predicate SameStream(a: seq<Instruction>, b: seq<Instruction>) {
    |a| == |b| && forall i :: 0 <= i < |a| ==> SameShape(a[i], b[i])
  }

  lemma {:induction false} SameStreamCons(x: Instruction, xs: seq<Instruction>, y: Instruction, ys: seq<Instruction>)
    requires SameShape(x, y) && SameStream(xs, ys)
    ensures SameStream([x] + xs, [y] + ys)
  {
    hide SameShape;
  }

  lemma {:induction false} SameOpcodesCons(code: seq<Byte>, code': seq<Byte>, first: Instruction,
          rest: seq<Instruction>)
    requires SameOpcodes(code, code', [first] + rest)
    ensures first.pc < |code| && first.pc < |code'| && code'[first.pc] == code[first.pc]
    ensures SameOpcodes(code, code', rest)
  {
    var all := [first] + rest;
    assert all[0] == first;
    forall i | 0 <= i < |rest| ensures rest[i] == all[i + 1] {
    }
  }

  lemma {:induction false} SameInstruction(code: seq<Byte>, code': seq<Byte>, pc: nat)
    requires |code| == |code'| && pc < |code| && code[pc] == code'[pc]
    ensures SameShape(InstructionAt(code', pc), InstructionAt(code, pc)) && InstructionAt(code, pc).pc == pc
  {
    hide BytesToNat;
  }

  lemma {:induction false} SameDests(code: seq<Byte>, code': seq<Byte>, pc: nat)
    requires |code| == |code'| && pc < |code| && code[pc] == code'[pc]
    requires JumpDestsFrom(code', pc + 1 + PushWidth(code[pc])) == JumpDestsFrom(code, pc + 1 + PushWidth(code[pc]))
    ensures JumpDestsFrom(code', pc) == JumpDestsFrom(code, pc)
  {
    hide PushWidth;
  }

  /** Code of the same length with the same opcode bytes has the same stream shape and jump destinations. */
  lemma {:induction false} StreamIsStable(code: seq<Byte>, code': seq<Byte>, from: nat)
    requires |code| == |code'| && SameOpcodes(code, code', Stream(code, from))
    ensures SameStream(Stream(code', from), Stream(code, from))
    ensures JumpDestsFrom(code', from) == JumpDestsFrom(code, from)
    decreases |code| - from
  {
    hide PushWidth, InstructionAt, Stream, SameStream, SameShape, SameOpcodes;
    StreamStep(code, from);
    StreamStep(code', from);
    if from < |code| {
      var next := from + 1 + PushWidth(code[from]);
      InstructionPc(code, from);
      SameOpcodesCons(code, code', InstructionAt(code, from), Stream(code, next));
      StreamIsStable(code, code', next);
      SameInstruction(code, code', from);
      SameStreamCons(InstructionAt(code', from), Stream(code', next), InstructionAt(code, from), Stream(code, next));
      SameDests(code, code', from);
    } else {
      NothingSame();
    }
  }

  lemma {:induction false} NothingSame()
    ensures SameStream([], [])
  {
  }

  // ----- patching -----

  function PatchOne(code: seq<Byte>, off: nat, bytes: seq<Byte>): (r: seq<Byte>)
    requires off + |bytes| <= |code|
    ensures |r| == |code|
    ensures forall k :: 0 <= k < |r| ==> r[k] == if off <= k < off + |bytes| then bytes[k - off] else code[k]
  {
    code[..off] + bytes + code[off + |bytes|..]
  }

  /** The payload a site receives: the low bytes of the word of its key. */
  function SiteBytes(site: Site, words: string -> Word): seq<Byte> {
    if site.length >= 0 then NatToBytes(words(site.key), site.length) else []
  }

  predicate InSite(site: Site, k: nat) {
    site.offset <= k < site.offset + site.length
  }

  lemma {:induction false} PayloadInCode(code: seq<Byte>, off: int, length: int)
    requires IsPayload(code, off, length)
    ensures 0 < off && 0 < length && off + length <= |code|
  {
    StreamTiles(code, 0);
  }

  /** All sites written, one after another. */
  function Patch(code: seq<Byte>, sites: seq<Site>, words: string -> Word): (r: seq<Byte>)
    ensures |r| == |code|
  {
    if sites == [] then code
    else
      var before := Patch(code, sites[..|sites| - 1], words);
      var site := sites[|sites| - 1];
      if 0 <= site.offset && site.offset + |SiteBytes(site, words)| <= |code| then
        PatchOne(before, site.offset, SiteBytes(site, words))
      else before
  }

  /** Sites of a good layout share no byte. */
  lemma {:induction false} SitesDisjoint(code: seq<Byte>, sites: seq<Site>, i: nat, j: nat, k: nat)
    requires GoodLayout(code, sites) && i < j < |sites|
    ensures !(InSite(sites[i], k) && InSite(sites[j], k))
  {
    hide IsPayload;
    assert GoodSite(code, sites[i]) && GoodSite(code, sites[j]);
    PayloadsAreDisjoint(code, sites[i].offset, sites[i].length, sites[j].offset, sites[j].length);
  }

  lemma {:induction false} PatchLast(code: seq<Byte>, front: seq<Site>, site: Site, words: string -> Word, k: nat)
    requires 0 <= site.offset && 0 <= site.length && site.offset + site.length <= |code| && k < |code|
    ensures Patch(code, front + [site], words)[k]
            == if InSite(site, k) then SiteBytes(site, words)[k - site.offset] else Patch(code, front, words)[k]
  {
    hide NatToBytes;
    assert (front + [site])[..|front|] == front;
  }

  /** Every byte after patching: the site's byte inside a site, the old byte elsewhere. */
  lemma {:induction false} PatchedByte(code: seq<Byte>, sites: seq<Site>, words: string -> Word, k: nat)
    requires GoodLayout(code, sites) && k < |code|
    ensures forall s :: s in sites && InSite(s, k) ==> Patch(code, sites, words)[k] == SiteBytes(s, words)[k - s.offset]
    ensures (forall s :: s in sites ==> !InSite(s, k)) ==> Patch(code, sites, words)[k] == code[k]
  {
    hide IsPayload, NatToBytes, Patch;
    if sites == [] {
      PatchNothing(code, words);
    } else {
      var n := |sites| - 1;
      var (front, site) := (sites[..n], sites[n]);
      assert sites == front + [site];
      assert GoodSite(code, site);
      PayloadInCode(code, site.offset, site.length);
      FrontLayout(code, sites);
      PatchedByte(code, front, words, k);
      PatchLast(code, front, site, words, k);
      forall s | s in front && InSite(s, k) ensures !InSite(site, k) {
        var j :| 0 <= j < n && front[j] == s;
        SitesDisjoint(code, sites, j, n, k);
      }
    }
  }

  lemma {:induction false} FrontLayout(code: seq<Byte>, sites: seq<Site>)
    requires sites != [] && GoodLayout(code, sites)
    ensures GoodLayout(code, sites[..|sites| - 1])
  {
    hide GoodSite;
  }

  lemma {:induction false} PatchNothing(code: seq<Byte>, words: string -> Word)
    ensures Patch(code, [], words) == code
  {
  }

  /** No instruction starts inside a payload. */
  lemma {:induction false} StartsAreOutsideSites(code: seq<Byte>, site: Site, i: nat)
    requires GoodSite(code, site) && i < |Stream(code, 0)|
    ensures !InSite(site, Stream(code, 0)[i].pc)
  {
    var ins := Stream(code, 0);
    var j :| 0 <= j < |ins| && PayloadOf(ins[j], site.offset, site.length);
    if i < j {
      Successor(code, i, j);
    } else if j < i {
      Successor(code, j, i);
    }
  }

  /**
   Patching keeps the stream: every pc, opcode and width stays, and so does every jump destination,
   whatever words are written into the sites of an accepted layout.
   */
  lemma {:induction false} PatchKeepsStream(code: seq<Byte>, sites: seq<Site>, words: string -> Word)
    requires GoodLayout(code, sites)
    ensures var ins, ins' := Stream(code, 0), Stream(Patch(code, sites, words), 0);
            SameStream(ins', ins)
    ensures JumpDests(Patch(code, sites, words)) == JumpDests(code)
  {
    hide Patch, GoodSite, Stream;
    var ins := Stream(code, 0);
    StreamTiles(code, 0);
    forall i | 0 <= i < |ins| ensures Patch(code, sites, words)[ins[i].pc] == code[ins[i].pc] {
      forall s | s in sites ensures !InSite(s, ins[i].pc) {
        StartsAreOutsideSites(code, s, i);
      }
      PatchedByte(code, sites, words, ins[i].pc);
    }
    StreamIsStable(code, Patch(code, sites, words), 0);
  }

  lemma {:induction false} LowBytes(n: nat, len: nat)
    ensures BytesToNat(NatToBytes(n, len)) == n % Pow256(len)
    decreases len
  {
    if len > 0 {
      LowBytes(n / 256, len - 1);
      var front := NatToBytes(n / 256, len - 1);
      assert (front + [n % 256])[..len - 1] == front;
      ModLowByte(n, n / 256, n % 256, Pow256(len - 1));
    }
  }

  /** An instruction of the patched code, decoded from the bytes at its old pc. */
  lemma {:induction false} PatchedInstruction(code: seq<Byte>, sites: seq<Site>, words: string -> Word, i: nat)
    requires GoodLayout(code, sites) && i < |Stream(code, 0)|
    ensures |Stream(Patch(code, sites, words), 0)| == |Stream(code, 0)|
    ensures Stream(code, 0)[i].pc < |code| && Stream(code, 0)[i] == InstructionAt(code, Stream(code, 0)[i].pc)
    ensures Stream(Patch(code, sites, words), 0)[i] == InstructionAt(Patch(code, sites, words), Stream(code, 0)[i].pc)
    ensures Patch(code, sites, words)[Stream(code, 0)[i].pc] == code[Stream(code, 0)[i].pc]
  {
    hide Patch, IsPayload, Stream, GoodLayout, InstructionAt;
    var code' := Patch(code, sites, words);
    StreamTiles(code, 0);
    StreamTiles(code', 0);
    PatchKeepsStream(code, sites, words);
    assert SameShape(Stream(code', 0)[i], Stream(code, 0)[i]);
    InstructionPc(code, Stream(code, 0)[i].pc);
    InstructionPc(code', Stream(code, 0)[i].pc);
  }

  /** The push at a site. */
  lemma {:induction false} SiteArgument(code: seq<Byte>, sites: seq<Site>, words: string -> Word, i: nat, s: Site)
    requires GoodLayout(code, sites) && i < |Stream(code, 0)| && s in sites && s.offset == Stream(code, 0)[i].pc + 1
    ensures var pc := Stream(code, 0)[i].pc;
            && Stream(code, 0)[i].width == s.length && pc < |code|
            && InstructionAt(Patch(code, sites, words), pc).argument == Some(words(s.key) % Pow256(s.length))
  {
    hide Patch, IsPayload, NatToBytes, Stream, BytesToNat;
    var pc := Stream(code, 0)[i].pc;
    var code' := Patch(code, sites, words);
    PatchedInstruction(code, sites, words, i);
    assert GoodSite(code, s);
    SitePayload(code, s, i);
    forall k | s.offset <= k < s.offset + s.length ensures code'[k] == SiteBytes(s, words)[k - s.offset] {
      PatchedByte(code, sites, words, k);
    }
    assert code'[pc + 1..pc + 1 + s.length] == SiteBytes(s, words);
    assert SiteBytes(s, words) + Zeros(0) == SiteBytes(s, words);
    LowBytes(words(s.key), s.length);
  }

  /** Any other instruction. */
  lemma {:induction false} OtherArgument(code: seq<Byte>, sites: seq<Site>, words: string -> Word, i: nat)
    requires GoodLayout(code, sites) && i < |Stream(code, 0)|
    requires forall s :: s in sites ==> s.offset != Stream(code, 0)[i].pc + 1
    ensures Stream(code, 0)[i].pc < |code|
    ensures InstructionAt(Patch(code, sites, words), Stream(code, 0)[i].pc) == InstructionAt(code, Stream(code, 0)[i].pc)
  {
    hide Patch, IsPayload, Stream, BytesToNat;
    var ins := Stream(code, 0)[i];
    var code' := Patch(code, sites, words);
    PatchedInstruction(code, sites, words, i);
    forall k | ins.pc < k < ins.pc + 1 + ins.width && k < |code| ensures code'[k] == code[k] {
      forall s | s in sites ensures !InSite(s, k) {
        assert GoodSite(code, s);
        OtherPayload(code, s, i, k);
      }
      PatchedByte(code, sites, words, k);
    }
    assert PushData(code', ins.pc) == PushData(code, ins.pc);
  }

  /** A push at a site pushes the low bytes of its word; every other push is unchanged. */
  lemma {:induction false} PatchedArgument(code: seq<Byte>, sites: seq<Site>, words: string -> Word, i: nat)
    requires GoodLayout(code, sites) && i < |Stream(code, 0)|
    ensures |Stream(Patch(code, sites, words), 0)| == |Stream(code, 0)|
    ensures var ins, ins' := Stream(code, 0)[i], Stream(Patch(code, sites, words), 0)[i];
            && (forall s :: s in sites && s.offset == ins.pc + 1 ==>
                  ins.width == s.length && ins'.argument == Some(words(s.key) % Pow256(s.length)))
            && ((forall s :: s in sites ==> s.offset != ins.pc + 1) ==> ins' == ins)
  {
    hide Patch, GoodLayout, Stream, InstructionAt, Pow256;
    PatchedInstruction(code, sites, words, i);
    var ins := Stream(code, 0)[i];
    forall s | s in sites && s.offset == ins.pc + 1
      ensures ins.width == s.length && InstructionAt(Patch(code, sites, words), ins.pc).argument
              == Some(words(s.key) % Pow256(s.length))
    {
      SiteArgument(code, sites, words, i, s);
    }
    if forall s :: s in sites ==> s.offset != ins.pc + 1 {
      OtherArgument(code, sites, words, i);
    }
  }

  lemma {:induction false} SitePayload(code: seq<Byte>, s: Site, i: nat)
    requires GoodSite(code, s) && i < |Stream(code, 0)| && s.offset == Stream(code, 0)[i].pc + 1
    ensures Stream(code, 0)[i].width == s.length && s.offset + s.length <= |code|
  {
    hide Stream;
    var ins := Stream(code, 0);
    StreamTiles(code, 0);
    PayloadInCode(code, s.offset, s.length);
    var j :| 0 <= j < |ins| && PayloadOf(ins[j], s.offset, s.length);
    assert ins[i].pc == ins[j].pc;
  }

  lemma {:induction false} OtherPayload(code: seq<Byte>, s: Site, i: nat, k: nat)
    requires GoodSite(code, s) && i < |Stream(code, 0)| && s.offset != Stream(code, 0)[i].pc + 1
    requires Stream(code, 0)[i].pc < k < Stream(code, 0)[i].pc + Stream(code, 0)[i].Size()
    ensures !InSite(s, k)
  {
    hide Stream;
    var ins := Stream(code, 0);
    var j :| 0 <= j < |ins| && PayloadOf(ins[j], s.offset, s.length);
    if i < j {
      Successor(code, i, j);
    } else if j < i {
      Successor(code, j, i);
    }
  }

  // ----- appending -----

  /** The complete instructions stay; only the last may be incomplete. */
  predicate KeptIn(ins: seq<Instruction>, ins': seq<Instruction>) {
    && |ins| <= |ins'|
    && forall i :: 0 <= i < |ins| ==>
         && (ins[i].complete ==> ins'[i] == ins[i])
         && (!ins[i].complete ==> i == |ins| - 1)
  }

  lemma {:induction false} KeptCons(x: Instruction, xs: seq<Instruction>, x': Instruction, xs': seq<Instruction>)
    requires KeptIn(xs, xs') && (x.complete ==> x' == x) && (!x.complete ==> xs == [])
    ensures KeptIn([x] + xs, [x'] + xs')
  {
  }

  lemma {:induction false} AppendedInstruction(code: seq<Byte>, tail: seq<Byte>, pc: nat)
    requires pc < |code|
    ensures InstructionAt(code, pc).complete <==> pc + 1 + PushWidth(code[pc]) <= |code|
    ensures InstructionAt(code, pc).complete ==> InstructionAt(code + tail, pc) == InstructionAt(code, pc)
  {
    hide BytesToNat;
    var next := pc + 1 + PushWidth(code[pc]);
    if next <= |code| {
      assert (code + tail)[pc + 1..next] == code[pc + 1..next];
    }
  }

  /** Appending bytes keeps every complete instruction and every jump destination of the code. */
  lemma {:induction false} AppendKeepsStream(code: seq<Byte>, tail: seq<Byte>, from: nat)
    ensures KeptIn(Stream(code, from), Stream(code + tail, from))
    ensures forall pc :: pc < |code| ==> (pc in JumpDestsFrom(code + tail, from) <==> pc in JumpDestsFrom(code, from))
    decreases |code| - from
  {
    hide PushWidth, InstructionAt, Stream, KeptIn;
    var all := code + tail;
    StreamStep(code, from);
    StreamStep(all, from);
    if from < |code| {
      var next := from + 1 + PushWidth(code[from]);
      AppendKeepsStream(code, tail, next);
      AppendedInstruction(code, tail, from);
      StreamStep(code, next);
      KeptCons(InstructionAt(code, from), Stream(code, next), InstructionAt(all, from), Stream(all, next));
    } else {
      NothingKept(Stream(all, from));
      LaterDests(all, from);
    }
  }

  lemma {:induction false} NothingKept(ins: seq<Instruction>)
    ensures KeptIn([], ins)
  {
  }

  lemma {:induction false} LaterDests(code: seq<Byte>, from: nat)
    ensures forall pc :: pc in JumpDestsFrom(code, from) ==> from <= pc
    decreases |code| - from
  {
    if from < |code| {
      LaterDests(code, from + 1 + PushWidth(code[from]));
    }
  }
}
