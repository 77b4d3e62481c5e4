/** The validity window and the quantised expiry of a signed URL.

    Timestamps (`now`, the creation date) are whole milliseconds. The window is a count
    of seconds, and the source adds it, unconverted, both to the millisecond timestamps
    (the quantisation step) and to the expiry once that is in seconds (the final extra
    window). The model keeps exactly that arithmetic. */
module Expiry {
  import opened Wrappers

  /** The window used when the configured one is zero: one year in seconds. */
  const DefaultWindowSeconds: int := 31536000

  /** The URL types the source distinguishes: session URLs and every other kind. */
  datatype UrlType = Session | Temporary

  function Abs(x: int): (r: nat)
    ensures r == x || r == -x
  {
    if x < 0 then -x else x
  }

  /** `Math.ceil(a / b)` for whole `a` and non-zero whole `b`: the least integer not below the quotient. */
  function CeilDiv(a: int, b: int): (q: int)
    requires b != 0
    ensures b > 0 ==> (q - 1) * b < a <= q * b
    ensures b < 0 ==> q * b <= a < (q - 1) * b
  {
    if b > 0 then (a + b - 1) / b else (-a - b - 1) / (-b)
  }

  /** Multiplying by a positive factor keeps the order. */
  lemma MulMonotonic(a: int, b: int, d: int)
    requires d > 0 && a <= b
    ensures a * d <= b * d
  {
    assert b * d - a * d == (b - a) * d;
  }

  /** Products with the same positive factor are ordered as the other factors. */
  lemma MulCancelLess(a: int, b: int, d: int)
    requires d > 0 && a * d < b * d
    ensures a < b
  {
    assert (b - a) * d == b * d - a * d;
  }

  /** A multiple of `d` leaves no remainder. */
  lemma MultipleMod(k: int, d: int)
    requires d > 0
    ensures (k * d) % d == 0
  {
    var q, r := (k * d) / d, (k * d) % d;
    assert k * d == q * d + r && 0 <= r < d;
    assert (k - q) * d == r;
    MulCancelLess(k - q, 1, d);
    MulCancelLess(-1, k - q, d);
  }

  /** The window: the session-absolute duration (milliseconds, divided by 1000) for session
      URLs, the general URL expiry otherwise, and one year when the chosen value is zero. */
  function WindowSeconds(urlType: UrlType, urlExpires: int, sessionAbsoluteMs: int): (w: int)
    requires urlType == Session ==> sessionAbsoluteMs % 1000 == 0
    ensures w != 0
    ensures urlType == Session && sessionAbsoluteMs != 0 ==> w * 1000 == sessionAbsoluteMs
    ensures urlType == Temporary && urlExpires != 0 ==> w == urlExpires
    ensures (if urlType == Session then sessionAbsoluteMs else urlExpires) == 0 ==> w == DefaultWindowSeconds
  {
    var chosen := if urlType == Session then sessionAbsoluteMs / 1000 else urlExpires;
    if chosen != 0 then chosen else DefaultWindowSeconds
  }

  /** With non-negative configuration the window is a positive number of seconds. */
  lemma WindowPositive(urlType: UrlType, urlExpires: int, sessionAbsoluteMs: int)
    requires urlType == Session ==> sessionAbsoluteMs % 1000 == 0
    requires urlExpires >= 0 && sessionAbsoluteMs >= 0
    ensures WindowSeconds(urlType, urlExpires, sessionAbsoluteMs) > 0
  {
  }

  /** `opt_creationDate || Date.now()`: a missing or zero creation date means "now". */
  function CreationDate(optCreationDate: Option<int>, now: int): (c: int)
    ensures optCreationDate.Some? && optCreationDate.value != 0 ==> c == optCreationDate.value
    ensures optCreationDate == None || optCreationDate == Some(0) ==> c == now
  {
    if optCreationDate.Some? && optCreationDate.value != 0 then optCreationDate.value else now
  }

  /** The expiry before conversion to seconds: the creation date advanced by whole windows
      until it covers the distance to `now` (in either direction). */
  function QuantizedExpiry(now: int, creation: int, w: int): int
    requires w != 0
  {
    creation + CeilDiv(Abs(now - creation), w) * w
  }

  /** The `expires` value of the URL: the quantised expiry in seconds, rounded up, plus one window. */
  function ExpiresSeconds(now: int, creation: int, w: int): int
    requires w != 0
  {
    CeilDiv(QuantizedExpiry(now, creation, w), 1000) + w
  }

  /** The quantised expiry lies a whole, non-negative number of windows after the creation
      date, and that number is the least one covering the distance between creation and now. */
  lemma QuantizedExpiryIsLeastCover(now: int, creation: int, w: int)
    requires w > 0
    ensures QuantizedExpiry(now, creation, w) - creation >= 0
    ensures (QuantizedExpiry(now, creation, w) - creation) % w == 0
    ensures QuantizedExpiry(now, creation, w) - creation >= Abs(now - creation)
    ensures QuantizedExpiry(now, creation, w) - creation - w < Abs(now - creation)
  {
    var k := CeilDiv(Abs(now - creation), w);
    MulCancelLess(-1, k, w);
    MulMonotonic(0, k, w);
    MultipleMod(k, w);
  }

  /** The quantised expiry is never before now nor before the creation date, and when the
      creation date is not in the future it is less than one window after now. */
  lemma QuantizedExpiryBounds(now: int, creation: int, w: int)
    requires w > 0
    ensures QuantizedExpiry(now, creation, w) >= now
    ensures QuantizedExpiry(now, creation, w) >= creation
    ensures creation <= now ==> QuantizedExpiry(now, creation, w) - now < w
  {
    QuantizedExpiryIsLeastCover(now, creation, w);
  }

  /** Ceiling division by a positive divisor is monotonic. */
  lemma CeilDivMonotonic(a: int, b: int, d: int)
    requires d > 0 && a <= b
    ensures CeilDiv(a, d) <= CeilDiv(b, d)
  {
    var qa, qb := CeilDiv(a, d), CeilDiv(b, d);
    MulCancelLess(qa - 1, qb, d);
  }

  /** The bounds `(q - 1) * d < a <= q * d` determine the ceiling quotient. */
  lemma CeilDivUnique(a: int, d: int, q: int)
    requires d > 0 && (q - 1) * d < a <= q * d
    ensures CeilDiv(a, d) == q
  {
    var r := CeilDiv(a, d);
    MulCancelLess(r - 1, q, d);
    MulCancelLess(q - 1, r, d);
  }

  /** The URL stays valid at least one full window (in seconds) past the current second. */
  lemma ExpiresLowerBound(now: int, creation: int, w: int)
    requires w > 0
    ensures ExpiresSeconds(now, creation, w) >= CeilDiv(now, 1000) + w
  {
    QuantizedExpiryBounds(now, creation, w);
    CeilDivMonotonic(now, QuantizedExpiry(now, creation, w), 1000);
  }

  /** Without a creation date the expiry is exactly the current second, rounded up, plus one window. */
  lemma ExpiresWithoutCreationDate(now: int, w: int)
    requires w != 0
    ensures ExpiresSeconds(now, CreationDate(None, now), w) == CeilDiv(now, 1000) + w
  {
  }

  /** For a creation date not in the future, a later `now` never gives an earlier expiry. */
  lemma ExpiresMonotonic(now1: int, now2: int, creation: int, w: int)
    requires w > 0 && creation <= now1 <= now2
    ensures ExpiresSeconds(now1, creation, w) <= ExpiresSeconds(now2, creation, w)
  {
    CeilDivMonotonic(now1 - creation, now2 - creation, w);
    MulMonotonic(CeilDiv(now1 - creation, w), CeilDiv(now2 - creation, w), w);
    CeilDivMonotonic(QuantizedExpiry(now1, creation, w), QuantizedExpiry(now2, creation, w), 1000);
  }

  /** Calls made at any time up to the quantised expiry of an earlier call (with the same
      creation date, not in the future) get the same quantised expiry: the schedule is stable. */
  lemma QuantizedExpiryStable(now1: int, now2: int, creation: int, w: int)
    requires w > 0 && creation <= now1 <= now2 <= QuantizedExpiry(now1, creation, w)
    ensures QuantizedExpiry(now2, creation, w) == QuantizedExpiry(now1, creation, w)
    ensures ExpiresSeconds(now2, creation, w) == ExpiresSeconds(now1, creation, w)
  {
    var k := CeilDiv(now1 - creation, w);
    assert (k - 1) * w < now2 - creation <= k * w;
    CeilDivUnique(now2 - creation, w, k);
  }

  /** For a creation date not in the future, moving `now` on by one window (w milliseconds,
      as the source adds it) moves the quantised expiry on by exactly one window. */
  lemma QuantizedExpiryAdvance(now: int, creation: int, w: int)
    requires w > 0 && creation <= now
    ensures QuantizedExpiry(now + w, creation, w) == QuantizedExpiry(now, creation, w) + w
  {
    var k := CeilDiv(now - creation, w);
    assert (k + 1 - 1) * w < now + w - creation <= (k + 1) * w;
    CeilDivUnique(now + w - creation, w, k + 1);
  }

  /** The window is applied to millisecond timestamps. With a one-hour window (3600) and a
      creation date in the past, calls made 5 s and 15 s after it get different expiries
      (4608 and 4618). Quantising by a window of 3600 seconds (3600000 ms) would have given
      both calls the same value, 8200. */
  lemma WindowQuantumIsMilliseconds()
    ensures ExpiresSeconds(1005000, 1000000, 3600) == 4608
    ensures ExpiresSeconds(1015000, 1000000, 3600) == 4618
    ensures CeilDiv(1000000 + CeilDiv(5000, 3600000) * 3600000, 1000) + 3600 == 8200
    ensures CeilDiv(1000000 + CeilDiv(15000, 3600000) * 3600000, 1000) + 3600 == 8200
  {
    assert CeilDiv(5000, 3600) == 2;
    assert CeilDiv(1007200, 1000) == 1008;
    assert CeilDiv(15000, 3600) == 5;
    assert CeilDiv(1018000, 1000) == 1018;
    assert CeilDiv(5000, 3600000) == 1 && CeilDiv(15000, 3600000) == 1;
    assert CeilDiv(4600000, 1000) == 4600;
  }

  /** With a creation date in the future the expiry can go down as `now` goes up: the
      distance to the creation date shrinks, and so does the number of windows added. */
  lemma ExpiresDecreasesBeforeCreationDate()
    ensures ExpiresSeconds(0, 10000, 3600) == 3621
    ensures ExpiresSeconds(9000, 10000, 3600) == 3614
  {
    assert CeilDiv(10000, 3600) == 3;
    assert CeilDiv(20800, 1000) == 21;
    assert CeilDiv(1000, 3600) == 1;
    assert CeilDiv(13600, 1000) == 14;
  }
}
