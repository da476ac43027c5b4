/** The 24-byte page header: a checksum over everything behind it, the page LSN and the page id. */
module Pages {
  import opened Bytes

  const PAGE_SIZE := 8192
  const OFF_PAGE_TYPE := 4
  const OFF_PAGE_LSN := 8
  const OFF_PAGE_ID := 16

  function Zeros(n: nat): (s: bytes)
    ensures |s| == n
    ensures forall i :: 0 <= i < n ==> s[i] == 0
  {
    if n == 0 then [] else Zeros(n - 1) + [0]
  }

  type Page = p: bytes | |p| == PAGE_SIZE witness Zeros(PAGE_SIZE)

  /** CRC32C, which the model does not look into. */
  type Crc = bytes -> u32

  const ZERO_PAGE: Page := Zeros(PAGE_SIZE)

  /** Everything but the checksum field: the part of a page that means something. */
  function Body(p: Page): (b: bytes)
    ensures |b| == PAGE_SIZE - 4
  {
    p[OFF_PAGE_TYPE..]
  }

  function StoredChecksum(p: Page): nat {
    UnLe(p[..4])
  }

  predicate VerifyChecksum(crc: Crc, p: Page) {
    StoredChecksum(p) == crc(Body(p))
  }

  function WithChecksum(crc: Crc, p: Page): Page {
    Le(4, crc(Body(p))) + Body(p)
  }

  function PageLsn(p: Page): nat {
    UnLe(p[OFF_PAGE_LSN..OFF_PAGE_LSN + 8])
  }

  /** The LSN as it is found in a page's body. */
  function BodyLsn(b: bytes): nat
    requires |b| == PAGE_SIZE - 4
  {
    UnLe(b[4..12])
  }

  /** The page with `width` bytes at `off` replaced by a little-endian number. */
  function WithField(p: Page, off: nat, width: nat, n: nat): Page
    requires off + width <= PAGE_SIZE
  {
    p[..off] + Le(width, n) + p[off + width..]
  }

  /** The monotone stamp: the claim only ever advances. */
  function Stamped(p: Page, lsn: u64): Page {
    WithField(p, OFF_PAGE_LSN, 8, if PageLsn(p) >= lsn then PageLsn(p) else lsn)
  }

  /** The same stamp on a page's body. */
  function StampedBody(b: bytes, lsn: u64): (r: bytes)
    requires |b| == PAGE_SIZE - 4
    ensures |r| == |b|
  {
    b[..4] + Le(8, if BodyLsn(b) >= lsn then BodyLsn(b) else lsn) + b[12..]
  }

  function NewPage(crc: Crc, id: nat): Page {
    WithChecksum(crc, WithField(ZERO_PAGE, OFF_PAGE_ID, 8, id))
  }

  lemma ChecksumWritten(crc: Crc, p: Page)
    ensures VerifyChecksum(crc, WithChecksum(crc, p))
    ensures Body(WithChecksum(crc, p)) == Body(p)
    ensures PageLsn(WithChecksum(crc, p)) == PageLsn(p)
  {
    Pow256Values();
    var q := WithChecksum(crc, p);
    assert q[..4] == Le(4, crc(Body(p)));
    assert q[4..] == Body(p);
    UnLeLe(4, crc(Body(p)));
    assert q[OFF_PAGE_LSN..OFF_PAGE_LSN + 8] == Body(p)[4..12] == p[OFF_PAGE_LSN..OFF_PAGE_LSN + 8];
  }

  lemma LsnIsInTheBody(p: Page)
    ensures PageLsn(p) == BodyLsn(Body(p))
  {
    assert Body(p)[4..12] == p[OFF_PAGE_LSN..OFF_PAGE_LSN + 8];
  }

  /** A field is read back, and no byte outside it moves. */
  lemma FieldWritten(p: Page, off: nat, width: nat, n: nat)
    requires off + width <= PAGE_SIZE && n < Pow256(width)
    ensures var q := WithField(p, off, width, n);
            && UnLe(q[off..off + width]) == n
            && q[..off] == p[..off] && q[off + width..] == p[off + width..]
  {
    var q := WithField(p, off, width, n);
    assert q[off..off + width] == Le(width, n);
    UnLeLe(width, n);
  }

  /** A stamp keeps the higher of the two claims. */
  lemma StampAdvances(p: Page, lsn: u64)
    ensures PageLsn(Stamped(p, lsn)) == if PageLsn(p) >= lsn then PageLsn(p) else lsn
    ensures PageLsn(Stamped(p, lsn)) >= PageLsn(p)
  {
    Pow256Values();
    FieldWritten(p, OFF_PAGE_LSN, 8, if PageLsn(p) >= lsn then PageLsn(p) else lsn);
  }

  /** Stamping a page stamps its body, and the body's LSN is the higher claim. */
  lemma StampIsInTheBody(p: Page, lsn: u64)
    ensures Body(Stamped(p, lsn)) == StampedBody(Body(p), lsn)
  {
    LsnIsInTheBody(p);
    assert p[..8][4..] == Body(p)[..4] && p[16..] == Body(p)[12..];
  }

  lemma StampedBodyAdvances(b: bytes, lsn: u64)
    requires |b| == PAGE_SIZE - 4
    ensures BodyLsn(StampedBody(b, lsn)) == if BodyLsn(b) >= lsn then BodyLsn(b) else lsn
  {
    Pow256Values();
    var n := if BodyLsn(b) >= lsn then BodyLsn(b) else lsn;
    assert StampedBody(b, lsn)[4..12] == Le(8, n);
    UnLeLe(8, n);
  }

  // ---- In place ----------------------------------------------------------------------------

  method WriteField(page: array<byte>, off: nat, width: nat, n: nat)
    requires page.Length == PAGE_SIZE && off + width <= PAGE_SIZE
    modifies page
    ensures page[..] == WithField(old(page[..]), off, width, n)
  {
    var field := Le(width, n);
    forall i | 0 <= i < width {
      page[off + i] := field[i];
    }
  }

  method WriteChecksum(page: array<byte>, crc: Crc)
    requires page.Length == PAGE_SIZE
    modifies page
    ensures page[..] == WithChecksum(crc, old(page[..]))
  {
    var c := crc(page[OFF_PAGE_TYPE..]);
    assert page[OFF_PAGE_TYPE..] == Body(page[..]);
    WriteField(page, 0, 4, c);
    assert page[..] == Le(4, c) + old(page[..])[4..];
  }

  method SetPageLsn(page: array<byte>, lsn: u64)
    requires page.Length == PAGE_SIZE
    modifies page
    ensures page[..] == Stamped(old(page[..]), lsn)
    ensures PageLsn(page[..]) >= old(PageLsn(page[..]))
  {
    StampAdvances(page[..], lsn);
    var current := PageLsn(page[..]);
    WriteField(page, OFF_PAGE_LSN, 8, if current >= lsn then current else lsn);
  }

  /** The unconditional stamp, for a page whose whole image is being replaced. */
  method ResetPageLsn(page: array<byte>, lsn: u64)
    requires page.Length == PAGE_SIZE
    modifies page
    ensures page[..] == WithField(old(page[..]), OFF_PAGE_LSN, 8, lsn) && PageLsn(page[..]) == lsn
  {
    Pow256Values();
    FieldWritten(page[..], OFF_PAGE_LSN, 8, lsn);
    WriteField(page, OFF_PAGE_LSN, 8, lsn);
  }
}
