/** Epochs: stretches of heights of one fixed length. */
module Epochs {

  /** Any length that 16-bit vote offsets can address; from 2 on, the successor is the following epoch. */
  type Length = n: nat | 2 <= n < 0x1_0000 witness 2

  function EpochAt(length: Length, height: nat): nat { height / length }

  function StartOf(length: Length, e: nat): nat { e * length }

  function EndOf(length: Length, e: nat): nat { StartOf(length, e) + length }

  lemma TimesRises(a: nat, b: nat, n: nat)
    requires a <= b
    ensures a * n <= b * n
    ensures (a + 1) * n == a * n + n
  {
  }

  lemma Bounds(length: Length, h: nat)
    ensures StartOf(length, EpochAt(length, h)) <= h < EndOf(length, EpochAt(length, h))
  {
  }

  lemma BeforeStart(length: Length, h: nat, e: nat)
    ensures h < StartOf(length, e) <==> EpochAt(length, h) < e
  {
    var q := EpochAt(length, h);
    Bounds(length, h);
    if q < e { TimesRises(q + 1, e, length); } else { TimesRises(e, q, length); }
    TimesRises(q, q, length);
  }

  lemma Rises(length: Length, h: nat, h': nat)
    requires h <= h'
    ensures EpochAt(length, h) <= EpochAt(length, h')
  {
    Bounds(length, h);
    BeforeStart(length, h', EpochAt(length, h));
  }

  lemma PastEnd(length: Length, e: nat)
    ensures EpochAt(length, EndOf(length, e) + 1) == e + 1
  {
    TimesRises(e, e, length);
    TimesRises(e + 1, e + 1, length);
    BeforeStart(length, EndOf(length, e) + 1, e + 1);
    BeforeStart(length, EndOf(length, e) + 1, e + 2);
  }

  /** The successor is computed from a height one past the end. */
  function NextEpoch(length: Length, e: nat): (next: nat)
    ensures next == e + 1
  {
    PastEnd(length, e);
    EpochAt(length, EndOf(length, e) + 1)
  }
}
