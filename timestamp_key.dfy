/** The generator's object key, `f"test_{timestamp}.txt"` with the timestamp
    formatted by `strftime("%Y%m%d_%H%M%S")`, and its inverse. The clock reading
    is a parameter. */
module TimestampKey {
  import opened Results
  import opened PyStr

  /** A UTC date and time with whole seconds, as `datetime` holds it. */
  datatype UtcTime = UtcTime(year: int, month: int, day: int, hour: int, minute: int, second: int)

  predicate IsLeapYear(y: int)
  {
    y % 4 == 0 && (y % 100 != 0 || y % 400 == 0)
  }

  function DaysInMonth(y: int, m: int): int
    requires 1 <= m <= 12
  {
    if m == 2 then (if IsLeapYear(y) then 29 else 28)
    else if m == 4 || m == 6 || m == 9 || m == 11 then 30
    else 31
  }

  /** The values a `datetime` accepts (years 1 to 9999). */
  predicate ValidTime(t: UtcTime)
  {
    1 <= t.year <= 9999 && 1 <= t.month <= 12 && 1 <= t.day <= DaysInMonth(t.year, t.month) &&
    0 <= t.hour < 24 && 0 <= t.minute < 60 && 0 <= t.second < 60
  }

  predicate IsDigit(c: char) { '0' <= c <= '9' }

  predicate AllDigits(s: string)
  {
    forall i :: 0 <= i < |s| ==> IsDigit(s[i])
  }

  function Digit(d: nat): (c: char)
    requires d < 10
    ensures IsDigit(c)
  {
    ('0' as int + d) as char
  }

  function Pow10(w: nat): nat
  {
    if w == 0 then 1 else 10 * Pow10(w - 1)
  }

  /** The last `width` decimal digits of `n`, zero-padded. */
  function Padded(n: nat, width: nat): (s: string)
    ensures |s| == width && AllDigits(s)
  {
    if width == 0 then [] else Padded(n / 10, width - 1) + [Digit(n % 10)]
  }

  /** The number a string of decimal digits denotes. */
  function DigitsValue(s: string): nat
    requires AllDigits(s)
  {
    if s == [] then 0 else DigitsValue(s[..|s| - 1]) * 10 + (s[|s| - 1] as int - '0' as int)
  }

  /** Reading back a zero-padded number gives the number. */
  lemma {:induction false} DigitsValuePadded(n: nat, width: nat)
    requires n < Pow10(width)
    ensures DigitsValue(Padded(n, width)) == n
  {
    if width > 0 {
      var s := Padded(n, width);
      assert s[..|s| - 1] == Padded(n / 10, width - 1);
      DigitsValuePadded(n / 10, width - 1);
    }
  }

  /** Padding the value of a digit string to its own length gives it back. */
  lemma {:induction false} PaddedDigitsValue(s: string)
    requires AllDigits(s)
    ensures DigitsValue(s) < Pow10(|s|)
    ensures Padded(DigitsValue(s), |s|) == s
  {
    if s != [] {
      var init := s[..|s| - 1];
      PaddedDigitsValue(init);
      var v := DigitsValue(s);
      var d := s[|s| - 1] as int - '0' as int;
      assert v == DigitsValue(init) * 10 + d && 0 <= d < 10;
      assert v / 10 == DigitsValue(init) && v % 10 == d;
      assert s == init + [s[|s| - 1]];
    }
  }

  /** `test_YYYYMMDD_HHMMSS.txt`. */
  function ObjectKey(t: UtcTime): (key: string)
    requires ValidTime(t)
    ensures |key| == 24
    ensures StartsWith(key, "test_") && EndsWith(key, ".txt")
  {
    "test_" + Padded(t.year, 4) + Padded(t.month, 2) + Padded(t.day, 2) + "_" +
    Padded(t.hour, 2) + Padded(t.minute, 2) + Padded(t.second, 2) + ".txt"
  }

  /** The key's fields as digit strings, when the layout of a key is there. */
  predicate KeyLayout(key: string)
  {
    |key| == 24 && key[..5] == "test_" && key[13] == '_' && key[20..] == ".txt" &&
    AllDigits(key[5..13]) && AllDigits(key[14..20])
  }

  /** The time a key names, if it is a key `ObjectKey` produces. */
  function ParseObjectKey(key: string): Option<UtcTime>
  {
    if !KeyLayout(key) then None
    else
      assert forall i :: 5 <= i < 13 ==> key[i] == key[5..13][i - 5];
      assert forall i :: 14 <= i < 20 ==> key[i] == key[14..20][i - 14];
      var t := UtcTime(DigitsValue(key[5..9]), DigitsValue(key[9..11]), DigitsValue(key[11..13]),
                       DigitsValue(key[14..16]), DigitsValue(key[16..18]), DigitsValue(key[18..20]));
      if ValidTime(t) then Some(t) else None
  }

  /** The pieces of an object key. */
  lemma ObjectKeySlices(t: UtcTime)
    requires ValidTime(t)
    ensures var key := ObjectKey(t);
      key[..5] == "test_" && key[5..9] == Padded(t.year, 4) && key[9..11] == Padded(t.month, 2) &&
      key[11..13] == Padded(t.day, 2) && key[13] == '_' && key[14..16] == Padded(t.hour, 2) &&
      key[16..18] == Padded(t.minute, 2) && key[18..20] == Padded(t.second, 2) && key[20..] == ".txt"
  {
  }

  /** Parsing a formatted key gives back the time. */
  lemma ParseObjectKeyOfObjectKey(t: UtcTime)
    requires ValidTime(t)
    ensures ParseObjectKey(ObjectKey(t)) == Some(t)
  {
    var key := ObjectKey(t);
    ObjectKeySlices(t);
    assert key[5..13] == key[5..9] + key[9..11] + key[11..13];
    assert key[14..20] == key[14..16] + key[16..18] + key[18..20];
    assert KeyLayout(key);
    assert Pow10(2) == 100 && Pow10(4) == 10000;
    DigitsValuePadded(t.year, 4);
    DigitsValuePadded(t.month, 2);
    DigitsValuePadded(t.day, 2);
    DigitsValuePadded(t.hour, 2);
    DigitsValuePadded(t.minute, 2);
    DigitsValuePadded(t.second, 2);
  }

  /** A 24-character string is the concatenation of the nine pieces of a key. */
  lemma Pieces(s: string)
    requires |s| == 24
    ensures s == s[..5] + s[5..9] + s[9..11] + s[11..13] + [s[13]] + s[14..16] + s[16..18] + s[18..20] + s[20..]
  {
  }

  /** A key that parses is exactly the formatted key of the time it names:
      formatting and parsing are inverse on valid keys. */
  lemma ObjectKeyOfParse(key: string)
    requires ParseObjectKey(key).Some?
    ensures ValidTime(ParseObjectKey(key).value)
    ensures ObjectKey(ParseObjectKey(key).value) == key
  {
    var t := ParseObjectKey(key).value;
    assert KeyLayout(key);
    SlicesPadded(key);
    ObjectKeySlices(t);
    var k := ObjectKey(t);
    Pieces(k);
    Pieces(key);
  }

  lemma SlicesPadded(key: string)
    requires KeyLayout(key)
    ensures AllDigits(key[5..9]) && AllDigits(key[9..11]) && AllDigits(key[11..13])
    ensures AllDigits(key[14..16]) && AllDigits(key[16..18]) && AllDigits(key[18..20])
    ensures key[5..9] == Padded(DigitsValue(key[5..9]), 4)
    ensures key[9..11] == Padded(DigitsValue(key[9..11]), 2)
    ensures key[11..13] == Padded(DigitsValue(key[11..13]), 2)
    ensures key[14..16] == Padded(DigitsValue(key[14..16]), 2)
    ensures key[16..18] == Padded(DigitsValue(key[16..18]), 2)
    ensures key[18..20] == Padded(DigitsValue(key[18..20]), 2)
  {
    DigitSlice(key, 5, 13, 5, 9);
    DigitSlice(key, 5, 13, 9, 11);
    DigitSlice(key, 5, 13, 11, 13);
    DigitSlice(key, 14, 20, 14, 16);
    DigitSlice(key, 14, 20, 16, 18);
    DigitSlice(key, 14, 20, 18, 20);
  }

  /** A piece of a digit string is a digit string, and padding its value
      restores it. */
  lemma DigitSlice(s: string, lo: nat, hi: nat, a: nat, b: nat)
    requires lo <= a <= b <= hi <= |s| && AllDigits(s[lo..hi])
    ensures AllDigits(s[a..b]) && s[a..b] == Padded(DigitsValue(s[a..b]), b - a)
  {
    assert forall i :: a <= i < b ==> s[i] == s[lo..hi][i - lo];
    PaddedDigitsValue(s[a..b]);
  }

  /** Different times give different keys. */
  lemma ObjectKeyInjective(t1: UtcTime, t2: UtcTime)
    requires ValidTime(t1) && ValidTime(t2)
    requires ObjectKey(t1) == ObjectKey(t2)
    ensures t1 == t2
  {
    ParseObjectKeyOfObjectKey(t1);
    ParseObjectKeyOfObjectKey(t2);
  }
}
