/**
 Version negotiation: the legacy four-slot handshake and the Manifest-v1 exchange, which must offer
 the same window of versions at every operator cap.
 */
module Handshake {
  import opened Bytes
  import opened Wrappers

  const MAGIC: bytes := [0x60, 0x60, 0xB0, 0x17]
  const PROPOSAL_SLOTS := 4
  const SUPPORTED_MAJOR: byte := 5
  const MIN_MINOR: byte := 0
  const MAX_MINOR: byte := 4
  const MANIFEST_V1_REQUEST: bytes := [0x00, 0x00, 0x01, 0xFF]
  const REJECTION: bytes := [0x00, 0x00, 0x00, 0x00]

  datatype Version = Version(major: byte, minor: byte) {
    function ToWire(): bytes {
      [0, 0, minor, major]
    }

    static function FromWire(s: bytes): Version
      requires |s| == 4
    {
      Version(s[3], s[2])
    }
  }

  datatype Proposal = Proposal(major: byte, minor: byte, range: byte) {
    function ToWire(): bytes {
      [0, range, minor, major]
    }

    static function FromWire(s: bytes): Proposal
      requires |s| == 4
    {
      Proposal(s[3], s[2], s[1])
    }

    /** The versions this proposal stands for. */
    predicate Offers(v: Version) {
      v.major == major && minor - range <= v.minor <= minor
    }

    predicate IsManifestRequest() {
      ToWire() == MANIFEST_V1_REQUEST
    }
  }

  function ClampMaxMinor(maxMinor: byte): byte {
    if maxMinor < MIN_MINOR then MIN_MINOR else if maxMinor > MAX_MINOR then MAX_MINOR else maxMinor
  }

  predicate VersionSupportedWithin(v: Version, maxMinor: byte) {
    v.major == SUPPORTED_MAJOR && MIN_MINOR <= v.minor <= ClampMaxMinor(maxMinor)
  }

  /** A slot the server could serve at this cap. */
  ghost predicate Satisfiable(p: Proposal, maxMinor: byte) {
    exists v: Version :: p.Offers(v) && VersionSupportedWithin(v, maxMinor)
  }

  /** The best version a slot allows: offered, supported, and no other such version is higher. */
  ghost predicate IsBest(v: Version, p: Proposal, maxMinor: byte) {
    && p.Offers(v) && VersionSupportedWithin(v, maxMinor)
    && forall w: Version :: p.Offers(w) && VersionSupportedWithin(w, maxMinor) ==> w.minor <= v.minor
  }

  /** Walks the offered minors from the top down to the first supported one. */
  method BestSupportedMinorWithin(p: Proposal, maxMinor: byte) returns (r: Option<byte>)
    ensures r == BestMinor(p, maxMinor)
  {
    if p.major != SUPPORTED_MAJOR {
      return None;
    }
    var cap := ClampMaxMinor(maxMinor);
    var lowest: int := if p.minor >= p.range then p.minor - p.range else 0;
    var minor: int := p.minor;
    while minor >= lowest
      invariant lowest - 1 <= minor <= p.minor
      invariant minor == p.minor || minor >= cap
    {
      if MIN_MINOR <= minor <= cap {
        return Some(minor);
      }
      minor := minor - 1;
    }
    return None;
  }

  /** The same choice without the walk. */
  function BestMinor(p: Proposal, maxMinor: byte): (r: Option<byte>)
    ensures r.Some? ==> IsBest(Version(SUPPORTED_MAJOR, r.value), p, maxMinor)
    ensures r.None? ==> !Satisfiable(p, maxMinor)
  {
    var cap := ClampMaxMinor(maxMinor);
    if p.major != SUPPORTED_MAJOR || p.minor as int - p.range > cap then None
    else Some(if p.minor <= cap then p.minor else cap)
  }

  function NegotiateWithin(proposals: seq<Proposal>, maxMinor: byte): (r: Option<Version>) {
    if proposals == [] then None
    else if BestMinor(proposals[0], maxMinor).Some? then
      Some(Version(SUPPORTED_MAJOR, BestMinor(proposals[0], maxMinor).value))
    else NegotiateWithin(proposals[1..], maxMinor)
  }

  ghost predicate FirstSatisfiable(k: int, proposals: seq<Proposal>, maxMinor: byte) {
    && 0 <= k < |proposals| && Satisfiable(proposals[k], maxMinor)
    && forall i :: 0 <= i < k ==> !Satisfiable(proposals[i], maxMinor)
  }

  /** The client's slot order is binding: the first satisfiable slot decides, at its best version. */
  lemma {:induction false} FirstSatisfiableSlotWins(proposals: seq<Proposal>, maxMinor: byte)
    ensures NegotiateWithin(proposals, maxMinor).None? <==>
              forall i :: 0 <= i < |proposals| ==> !Satisfiable(proposals[i], maxMinor)
    ensures forall k :: FirstSatisfiable(k, proposals, maxMinor) ==>
              && NegotiateWithin(proposals, maxMinor).Some?
              && IsBest(NegotiateWithin(proposals, maxMinor).value, proposals[k], maxMinor)
  {
    hide IsBest;
    if proposals != [] {
      var tail := proposals[1..];
      FirstSatisfiableSlotWins(tail, maxMinor);
      var best := BestMinor(proposals[0], maxMinor);
      assert best.Some? ==> Satisfiable(proposals[0], maxMinor) by {
        BestIsSatisfiable(proposals[0], maxMinor);
      }
      forall k | FirstSatisfiable(k, proposals, maxMinor)
        ensures NegotiateWithin(proposals, maxMinor).Some?
        ensures IsBest(NegotiateWithin(proposals, maxMinor).value, proposals[k], maxMinor)
      {
        if k > 0 {
          assert !Satisfiable(proposals[0], maxMinor);
          assert FirstSatisfiable(k - 1, tail, maxMinor);
        }
      }
      if best.None? {
        assert forall i :: 0 < i < |proposals| ==> proposals[i] == tail[i - 1];
      }
    }
  }

  lemma BestIsSatisfiable(p: Proposal, maxMinor: byte)
    ensures BestMinor(p, maxMinor).Some? <==> Satisfiable(p, maxMinor)
  {
  }

  datatype HandshakeChoice = Legacy(version: Version) | Manifest

  function SelectWithin(proposals: seq<Proposal>, maxMinor: byte): Option<HandshakeChoice> {
    if proposals == [] then None
    else if proposals[0].IsManifestRequest() then Some(Manifest)
    else if BestMinor(proposals[0], maxMinor).Some? then
      Some(Legacy(Version(SUPPORTED_MAJOR, BestMinor(proposals[0], maxMinor).value)))
    else SelectWithin(proposals[1..], maxMinor)
  }

  /** Position of the first slot that is a manifest request, or the number of slots. */
  function FirstManifest(proposals: seq<Proposal>): (k: nat)
    ensures k <= |proposals|
    ensures k < |proposals| ==> proposals[k].IsManifestRequest()
    ensures forall i :: 0 <= i < k ==> !proposals[i].IsManifestRequest()
  {
    if proposals == [] || proposals[0].IsManifestRequest() then 0 else 1 + FirstManifest(proposals[1..])
  }

  /**
   The marker competes by position: the slots ahead of it are negotiated as the legacy form would,
   and only when none of them can be served does the marker, if there is one, take effect.
   */
  lemma {:induction false} SelectByPosition(proposals: seq<Proposal>, maxMinor: byte)
    ensures var k := FirstManifest(proposals);
            var ahead := NegotiateWithin(proposals[..k], maxMinor);
            SelectWithin(proposals, maxMinor)
              == if ahead.Some? then Some(Legacy(ahead.value)) else if k < |proposals| then Some(Manifest) else None
  {
    if proposals != [] && !proposals[0].IsManifestRequest() {
      var k := FirstManifest(proposals);
      SelectByPosition(proposals[1..], maxMinor);
      assert proposals[..k][1..] == proposals[1..][..k - 1];
    }
  }

  // ---- The advertised window ---------------------------------------------------------------

  function SupportedManifestRangeWithin(maxMinor: byte): Proposal {
    Proposal(SUPPORTED_MAJOR, ClampMaxMinor(maxMinor), ClampMaxMinor(maxMinor) - MIN_MINOR)
  }

  /**
   Both handshake forms offer one window: a version lies in the advertised manifest range exactly
   when the server accepts it as a manifest choice, and exactly when the legacy form grants it to a
   client that proposes nothing else.
   */
  lemma BothFormsOfferTheSameWindow(v: Version, maxMinor: byte)
    ensures SupportedManifestRangeWithin(maxMinor).Offers(v) <==> VersionSupportedWithin(v, maxMinor)
    ensures NegotiateWithin([Proposal(v.major, v.minor, 0)], maxMinor) == Some(v) <==> VersionSupportedWithin(v, maxMinor)
  {
  }

  /** Whatever the legacy form grants, the manifest form would have accepted. */
  lemma {:induction false} GrantedIsSupported(proposals: seq<Proposal>, maxMinor: byte)
    requires NegotiateWithin(proposals, maxMinor).Some?
    ensures VersionSupportedWithin(NegotiateWithin(proposals, maxMinor).value, maxMinor)
  {
    if BestMinor(proposals[0], maxMinor).None? {
      GrantedIsSupported(proposals[1..], maxMinor);
    }
  }

  // ---- The opening -------------------------------------------------------------------------

  function ProposalBytes(proposals: seq<Proposal>): bytes {
    if proposals == [] then [] else proposals[0].ToWire() + ProposalBytes(proposals[1..])
  }

  function ParseProposals(n: nat, s: bytes): (r: seq<Proposal>)
    requires |s| == 4 * n
    ensures |r| == n
  {
    if n == 0 then [] else [Proposal.FromWire(s[..4])] + ParseProposals(n - 1, s[4..])
  }

  function ParseClientHandshake(s: bytes): Option<seq<Proposal>> {
    if |s| != 20 || s[..4] != MAGIC then None else Some(ParseProposals(PROPOSAL_SLOTS, s[4..]))
  }

  lemma {:induction false} ProposalsRoundTrip(proposals: seq<Proposal>)
    ensures |ProposalBytes(proposals)| == 4 * |proposals|
    ensures ParseProposals(|proposals|, ProposalBytes(proposals)) == proposals
  {
    if proposals != [] {
      ProposalsRoundTrip(proposals[1..]);
      assert ProposalBytes(proposals)[..4] == proposals[0].ToWire();
      assert ProposalBytes(proposals)[4..] == ProposalBytes(proposals[1..]);
    }
  }

  lemma HandshakeRoundTrip(proposals: seq<Proposal>)
    requires |proposals| == PROPOSAL_SLOTS
    ensures ParseClientHandshake(MAGIC + ProposalBytes(proposals)) == Some(proposals)
  {
    ProposalsRoundTrip(proposals);
    assert (MAGIC + ProposalBytes(proposals))[4..] == ProposalBytes(proposals);
  }

  // ---- Varints -----------------------------------------------------------------------------

  function Pow128(k: nat): (p: nat)
    ensures p >= 1
  {
    if k == 0 then 1 else 128 * Pow128(k - 1)
  }

  lemma Pow128Nine()
    ensures Pow128(9) == 0x8000_0000_0000_0000
  {
  }

  /** Seven bits a byte, least significant first, the high bit set on all but the last. */
  function Varint(value: nat): (s: bytes)
    ensures s != []
  {
    if value < 128 then [value] else [128 + value % 128] + Varint(value / 128)
  }

  datatype VarintResult = VarintOk(value: nat, size: nat) | VarintTruncated | VarintOverflow

  /**
   A varint whose groups start at the `k`-th: an eleventh group, or more than one bit in the tenth,
   would not fit 64 bits and is refused.
   */
  function ReadVarint(s: bytes, k: nat): (r: VarintResult)
    ensures r.VarintOk? ==> k <= 9 && 1 <= r.size <= |s| && r.value <= 2 * Pow128(9) - Pow128(k)
    decreases |s|
  {
    if s == [] then VarintTruncated else
    var payload := s[0] % 128;
    if k >= 10 || (k == 9 && payload > 1) then VarintOverflow
    else if s[0] < 128 then
      PlaceFits(payload, k);
      VarintOk(payload * Pow128(k), 1)
    else
      var tail := ReadVarint(s[1..], k + 1);
      if tail.VarintOk? then
        GroupFits(payload, k, tail.value);
        VarintOk(payload * Pow128(k) + tail.value, tail.size + 1)
      else tail
  }

  lemma MulMono(a: nat, b: nat, p: nat)
    requires a <= b
    ensures a * p <= b * p
  {
  }

  lemma GroupFits(payload: nat, k: nat, tail: nat)
    requires payload < 128 && tail <= 2 * Pow128(9) - Pow128(k + 1)
    ensures 0 <= payload * Pow128(k)
    ensures payload * Pow128(k) + tail <= 2 * Pow128(9) - Pow128(k)
  {
    MulMono(payload, 127, Pow128(k));
  }

  lemma PlaceFits(payload: nat, k: nat)
    requires payload < 128 && k <= 9 && (k == 9 ==> payload <= 1)
    ensures 0 <= payload * Pow128(k) <= 2 * Pow128(9) - Pow128(k)
  {
    if k < 9 {
      Pow128Grows(k + 1, 9);
      MulMono(payload, 127, Pow128(k));
    } else {
      MulMono(payload, 1, Pow128(k));
    }
  }

  lemma {:induction false} Pow128Grows(j: nat, k: nat)
    requires j <= k
    ensures Pow128(j) <= Pow128(k)
  {
    if j < k {
      Pow128Grows(j, k - 1);
    }
  }

  method WriteVarint(out: bytes, value: u64) returns (r: bytes)
    ensures r == out + Varint(value)
  {
    r := out;
    var left: nat := value;
    while true
      invariant r + Varint(left) == out + Varint(value)
      decreases left
    {
      var group := left % 128;
      if left / 128 == 0 {
        r := r + [group];
        return;
      }
      assert r + ([128 + group] + Varint(left / 128)) == r + [128 + group] + Varint(left / 128);
      left := left / 128;
      r := r + [group + 128];
    }
  }

  /** The reader's loop; `pos` moves past the varint on success. */
  method ReadVarintAt(s: bytes, start: nat) returns (r: VarintResult, pos: nat)
    requires start <= |s|
    ensures r == ReadVarint(s[start..], 0)
    ensures r.VarintOk? ==> pos == start + r.size && r.value < 0x1_0000_0000_0000_0000
  {
    Pow128Nine();
    hide Pow128;
    var value: nat, k: nat := 0, 0;
    pos := start;
    ghost var spec := ReadVarint(s[start..], 0);
    while true
      invariant start <= pos <= |s| && pos - start == k
      invariant spec == Shifted(ReadVarint(s[pos..], k), value, k)
      decreases |s| - pos
    {
      if pos == |s| {
        return VarintTruncated, pos;
      }
      var b := s[pos];
      var payload := b % 128;
      assert s[pos..][0] == b && s[pos..][1..] == s[pos + 1..];
      pos := pos + 1;
      if k >= 10 || (k == 9 && payload > 1) {
        return VarintOverflow, pos;
      }
      value := value + payload * Pow128(k);
      if b < 128 {
        r := VarintOk(value, pos - start);
        return;
      }
      k := k + 1;
    }
  }

  /** A result with already read groups added in front. */
  ghost function Shifted(r: VarintResult, value: nat, groups: nat): VarintResult {
    if r.VarintOk? then VarintOk(value + r.value, groups + r.size) else r
  }

  lemma LastGroup(b: byte, t: bytes, k: nat)
    requires b < 128 && k <= 9 && (k == 9 ==> b <= 1)
    ensures 0 <= b * Pow128(k) && ReadVarint([b] + t, k) == VarintOk(b * Pow128(k), 1)
  {
    PlaceFits(b, k);
  }

  lemma MoreGroups(low: nat, tail: bytes, k: nat)
    requires low < 128 && k < 9 && ReadVarint(tail, k + 1).VarintOk?
    ensures 0 <= low * Pow128(k) + ReadVarint(tail, k + 1).value
    ensures var r := ReadVarint(tail, k + 1);
            ReadVarint([128 + low] + tail, k) == VarintOk(low * Pow128(k) + r.value, r.size + 1)
  {
    GroupFits(low, k, ReadVarint(tail, k + 1).value);
    assert ([128 + low] + tail)[1..] == tail;
  }

  lemma {:induction false} VarintRoundTripAt(value: nat, t: bytes, k: nat)
    requires value * Pow128(k) < 2 * Pow128(9) && k <= 9
    ensures ReadVarint(Varint(value) + t, k) == VarintOk(value * Pow128(k), |Varint(value)|)
    decreases value
  {
    hide ReadVarint, Pow128;
    AtMostOne(value, k);
    if value < 128 {
      LastGroup(value, t, k);
    } else {
      DropRemainder(value, k);
      VarintRoundTripAt(value / 128, t, k + 1);
      var tail := Varint(value / 128) + t;
      assert Varint(value) + t == [128 + value % 128] + tail;
      MoreGroups(value % 128, tail, k);
      SplitGroup(value, k);
    }
  }

  lemma AtMostOne(value: nat, k: nat)
    requires value * Pow128(k) < 2 * Pow128(9)
    ensures k == 9 ==> value <= 1
  {
  }

  lemma DropRemainder(value: nat, k: nat)
    ensures value / 128 * Pow128(k + 1) <= value * Pow128(k)
  {
  }

  lemma SplitGroup(value: nat, k: nat)
    ensures value % 128 * Pow128(k) + value / 128 * Pow128(k + 1) == value * Pow128(k)
  {
  }

  /** Every 64-bit number is read back from its varint, whatever follows. */
  lemma VarintRoundTrip(value: u64, t: bytes)
    ensures ReadVarint(Varint(value) + t, 0) == VarintOk(value, |Varint(value)|)
  {
    Pow128Nine();
    VarintRoundTripAt(value, t, 0);
  }

  // ---- The manifest exchange ---------------------------------------------------------------

  datatype ManifestChoice = ManifestChoice(version: Version, capabilities: u64)

  function EncodeManifestChoice(c: ManifestChoice): bytes {
    c.version.ToWire() + Varint(c.capabilities)
  }

  function ParseManifestChoice(s: bytes): Option<ManifestChoice> {
    if |s| < 4 then None else
    var r := ReadVarint(s[4..], 0);
    Pow128Nine();
    if r.VarintOk? then Some(ManifestChoice(Version.FromWire(s[..4]), r.value)) else None
  }

  lemma ManifestChoiceRoundTrip(c: ManifestChoice, t: bytes)
    ensures ParseManifestChoice(EncodeManifestChoice(c) + t) == Some(c)
  {
    hide Varint, ReadVarint;
    var s := EncodeManifestChoice(c) + t;
    assert s[..4] == c.version.ToWire() && s[4..] == Varint(c.capabilities) + t;
    VarintRoundTrip(c.capabilities, t);
  }

  function EncodeServerManifest(ranges: seq<Proposal>, capabilities: u64): bytes {
    MANIFEST_V1_REQUEST + Varint(|ranges|) + ProposalBytes(ranges) + Varint(capabilities)
  }

  /** The server's reply can be taken apart again: range count, the ranges, the capabilities. */
  lemma ServerManifestReadsBack(ranges: seq<Proposal>, capabilities: u64)
    requires |ranges| < 0x1_0000_0000_0000_0000
    ensures var s := EncodeServerManifest(ranges, capabilities);
            && |s| >= 4 && s[..4] == MANIFEST_V1_REQUEST
            && var count := ReadVarint(s[4..], 0);
            && count.VarintOk? && count.value == |ranges|
            && var body := s[4 + count.size..];
            && |body| >= 4 * |ranges| && ParseProposals(|ranges|, body[..4 * |ranges|]) == ranges
            && ReadVarint(body[4 * |ranges|..], 0) == VarintOk(capabilities, |Varint(capabilities)|)
  {
    hide Varint, ReadVarint;
    var s := EncodeServerManifest(ranges, capabilities);
    var tail := ProposalBytes(ranges) + Varint(capabilities);
    assert s[4..] == Varint(|ranges|) + tail;
    VarintRoundTrip(|ranges|, tail);
    ProposalsRoundTrip(ranges);
    var body := s[4 + |Varint(|ranges|)|..];
    assert body == tail;
    assert body[..4 * |ranges|] == ProposalBytes(ranges);
    assert body[4 * |ranges|..] == Varint(capabilities) + [];
    VarintRoundTrip(capabilities, []);
  }
}
