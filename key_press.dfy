/**
 * One recorded key press: the foreground application, the normalised key
 * combination and a millisecond timestamp.
 */
module Presses {
  import opened Decimal

  /** `unsigned long` on the Windows (LLP64) target the program is built for: 32 bits. */
  const WordModulus: int := 0x1_0000_0000

  /** A millisecond timestamp held in 64 unsigned bits. */
  type Millis = x: int | 0 <= x < 0x1_0000_0000_0000_0000

  /** The three-field record; the datatype constructor is the three-argument constructor. */
  datatype KeyPress = KeyPress(appName: string, keyCombination: string, timestamp: Millis)

  /**
   * The two-argument constructor as written: the clock's millisecond count
   * is converted to `unsigned long`, which keeps it modulo 2^32.
   */
  function KeyPressAtAsWritten(app: string, keys: string, nowMs: int): (p: KeyPress)
    ensures p.appName == app && p.keyCombination == keys
    ensures 0 <= p.timestamp < WordModulus
    ensures (nowMs - p.timestamp) % WordModulus == 0
  {
    KeyPress(app, keys, nowMs % WordModulus)
  }

  /** A clock reading of November 2023 does not survive the conversion. */
  lemma ClockReadingIsTruncated()
    ensures KeyPressAtAsWritten("app", "Ctrl+S", 1_700_000_000_000).timestamp == 3_487_918_080
  {
  }

  /** Two presses one millisecond apart across the wrap compare the wrong way round. */
  lemma WrapReversesOrder()
    ensures Before(KeyPressAtAsWritten("app", "A", 0xFFFF_FFFF + 1), KeyPressAtAsWritten("app", "B", 0xFFFF_FFFF))
  {
  }

  /**
   * The two-argument constructor with the timestamp kept in 64 bits: the
   * clock reading (the `now` it would read) is stored unchanged.
   */
  function KeyPressAt(app: string, keys: string, nowMs: Millis): (p: KeyPress)
    ensures p.appName == app && p.keyCombination == keys
    ensures p.timestamp == nowMs
    ensures ParseDecimal(FormattedTime(p)) == nowMs
  {
    KeyPress(app, keys, nowMs)
  }

  /** `operator<`: earlier timestamp first; application and keys play no part. */
  predicate Before(a: KeyPress, b: KeyPress)
  {
    a.timestamp < b.timestamp
  }

  lemma BeforeIsStrictOrder(a: KeyPress, b: KeyPress, c: KeyPress)
    ensures !Before(a, a)
    ensures Before(a, b) ==> !Before(b, a)
    ensures Before(a, b) && Before(b, c) ==> Before(a, c)
  {
  }

  /** Presses with equal timestamps are equivalent under `operator<`, whatever else differs. */
  lemma EqualTimestampsAreIncomparable(a: KeyPress, b: KeyPress)
    requires a.timestamp == b.timestamp
    ensures !Before(a, b) && !Before(b, a)
  {
  }

  /** Incomparability is transitive, so `operator<` is a strict weak order fit for sorting. */
  lemma IncomparabilityIsTransitive(a: KeyPress, b: KeyPress, c: KeyPress)
    requires !Before(a, b) && !Before(b, a)
    requires !Before(b, c) && !Before(c, b)
    ensures !Before(a, c) && !Before(c, a)
  {
  }

  /** `getFormattedTime`: the timestamp in decimal, which reads back as the timestamp. */
  function FormattedTime(p: KeyPress): (s: string)
    ensures AllDigits(s) && 1 <= |s|
    ensures ParseDecimal(s) == p.timestamp
    ensures s[0] == '0' ==> s == "0"
  {
    ParseDecimalString(p.timestamp);
    DecimalString(p.timestamp)
  }

  /** Different timestamps never format alike. */
  lemma FormattedTimeInjective(a: KeyPress, b: KeyPress)
    requires FormattedTime(a) == FormattedTime(b)
    ensures a.timestamp == b.timestamp
  {
    DecimalStringInjective(a.timestamp, b.timestamp);
  }
}
