/** The generator's table: 100 rows of fake customers, the Email column
    derived from the names, random ages, quantities and prices. Faker and
    numpy are the parameters: `fakeName(i)` is what the i-th call of
    `fake.name()` returns, `ageDraw(i)` the raw i-th random draw, and so on. */
module GeneratorTable {
  import opened Results
  import opened PyStr

  const RowCount: nat := 100

  /** Raised by `name.split()[1]` when a name has fewer than two pieces. */
  datatype GeneratorError = IndexError

  // -------------------------------------------------------- Email column

  /** `f"{name.split()[0].lower()}.{name.split()[1].lower()}@example.com"`. */
  function DeriveEmail(name: string): (r: Result<string, GeneratorError>)
    ensures r.Failure? <==> |Split(name)| < 2
  {
    var tokens := Split(name);
    if |tokens| < 2 then Failure(IndexError)
    else Success(Lower(tokens[0]) + "." + Lower(tokens[1]) + "@example.com")
  }

  /** A name made of whitespace-separated words: the email is built from the
      first two words, lowered, and the remaining words are ignored. */
  lemma EmailOfWords(first: string, last: string, more: seq<string>)
    requires IsToken(first) && IsToken(last)
    requires forall k :: 0 <= k < |more| ==> IsToken(more[k])
    ensures DeriveEmail(JoinSpace([first, last] + more)) ==
      Success(Lower(first) + "." + Lower(last) + "@example.com")
  {
    var ts := [first, last] + more;
    forall k | 0 <= k < |ts|
      ensures IsToken(ts[k])
    {
      if k >= 2 {
        assert ts[k] == more[k - 2];
      }
    }
    var name := JoinSpace(ts);
    SplitJoinSpace(ts);
    EmailFromTokens(name, ts);
  }

  lemma EmailFromTokens(name: string, ts: seq<string>)
    requires Split(name) == ts && |ts| >= 2
    ensures DeriveEmail(name) == Success(Lower(ts[0]) + "." + Lower(ts[1]) + "@example.com")
  {
  }

  /** A one-word or blank name has no second piece: derivation fails. */
  lemma EmailOfOneWordFails(name: string)
    requires IsToken(name) || forall i :: 0 <= i < |name| ==> IsSpace(name[i])
    ensures DeriveEmail(name) == Failure(IndexError)
  {
    if IsToken(name) {
      SplitWord(name);
    } else {
      SplitBlank(name);
    }
  }

  lemma JaneDoe()
    ensures DeriveEmail("Jane Doe") == Success("jane.doe@example.com")
  {
    var first, last := "Jane", "Doe";
    assert IsToken(first) && IsToken(last);
    EmailOfWords(first, last, []);
    assert JoinSpace([first, last] + []) == first + " " + last;
    assert first + " " + last == "Jane Doe";
    assert Lower(first) + "." + Lower(last) + "@example.com" == "jane.doe@example.com";
  }

  /** A derived email has no whitespace and no upper-case letter, and ends in
      "@example.com". */
  lemma EmailShape(name: string)
    requires DeriveEmail(name).Success?
    ensures var e := DeriveEmail(name).value;
      EndsWith(e, "@example.com") &&
      forall i :: 0 <= i < |e| ==> !IsSpace(e[i]) && !IsUpper(e[i])
  {
    var tokens := Split(name);
    var a, b := Lower(tokens[0]), Lower(tokens[1]);
    LowerShape(tokens[0]);
    LowerShape(tokens[1]);
    var e := a + "." + b + "@example.com";
    assert e == DeriveEmail(name).value;
    forall i | 0 <= i < |e|
      ensures !IsSpace(e[i]) && !IsUpper(e[i])
    {
      if i < |a| {
        assert e[i] == a[i];
      } else if i == |a| {
        assert e[i] == '.';
      } else if i < |a| + 1 + |b| {
        assert e[i] == b[i - |a| - 1];
      } else {
        assert e[i] == "@example.com"[i - |a| - 1 - |b|];
      }
    }
  }

  /** The email list comprehension: it stops at the first name that fails. */
  function DeriveEmails(names: seq<string>): (r: Result<seq<string>, GeneratorError>)
    ensures r.Failure? <==> exists i :: 0 <= i < |names| && DeriveEmail(names[i]).Failure?
    ensures r.Success? ==> |r.value| == |names|
    ensures r.Success? ==> forall i :: 0 <= i < |names| ==> DeriveEmail(names[i]) == Success(r.value[i])
  {
    if names == [] then Success([])
    else
      match DeriveEmail(names[0])
      case Failure(e) => Failure(e)
      case Success(email) =>
        match DeriveEmails(names[1..])
        case Failure(e) => Failure(e)
        case Success(rest) =>
          assert forall i :: 1 <= i < |names| ==> names[i] == names[1..][i - 1];
          Success([email] + rest)
  }

  // -------------------------------------------------------- random columns

  /** A value of `np.random.randint(low, high)` picked by the raw draw `draw`. */
  function RandInt(low: int, high: int, draw: nat): (v: int)
    requires low < high
    ensures low <= v < high
  {
    low + draw % (high - low)
  }

  /** Every value of the range is produced by some draw. */
  lemma RandIntCovers(low: int, high: int, v: int)
    requires low <= v < high
    ensures RandInt(low, high, v - low) == v
  {
  }

  /** `random_sample()` is k / 2^53 for a 53-bit integer k. */
  const SampleScale: nat := 0x20_0000_0000_0000

  /** `n / d` rounded to the nearest integer, ties to even, as `np.round` does. */
  function RoundHalfEven(n: nat, d: nat): (q: nat)
    requires d > 0
    ensures 2 * q * d <= 2 * n + d && 2 * n <= 2 * q * d + d
    ensures (2 * n + d == 2 * q * d || 2 * n == 2 * q * d + d) ==> q % 2 == 0
  {
    var f, rem := n / d, n % d;
    if 2 * rem < d then f
    else if 2 * rem > d then f + 1
    else if f % 2 == 0 then f else f + 1
  }

  /** `np.round(np.random.uniform(0.0, 100.0), 2)` in cents, for the 53-bit
      sample `draw % 2^53`: round(100 * 100 * k / 2^53). */
  function PriceCents(draw: nat): (cents: nat)
    ensures cents <= 10000
  {
    var k := draw % SampleScale;
    assert 10000 * k <= 10000 * (SampleScale - 1);
    RoundHalfEven(10000 * k, SampleScale)
  }

  /** The largest sample rounds up to 100.00. */
  lemma PriceReachesHundred()
    ensures PriceCents(SampleScale - 1) == 10000
  {
  }

  /** The sample 2^48 / 2^53 is 3.125 exactly, a tie at 312.5 cents, which
      rounds to the even 312. */
  lemma PriceTieRoundsToEven()
    ensures PriceCents(0x1_0000_0000_0000) == 312
  {
  }

  /** The table as the dictionary of columns the handler builds. */
  datatype SampleData = SampleData(
    customer: seq<string>,
    age: seq<int>,
    city: seq<string>,
    email: seq<string>,
    orderQuantity: seq<int>,
    priceCents: seq<int>)

  /** Every column has `RowCount` entries. */
  predicate HasRowCount(d: SampleData)
  {
    |d.customer| == RowCount && |d.age| == RowCount && |d.city| == RowCount &&
    |d.email| == RowCount && |d.orderQuantity| == RowCount && |d.priceCents| == RowCount
  }

  /** The value bounds of the random columns. */
  predicate InBounds(d: SampleData)
  {
    (forall i :: 0 <= i < |d.age| ==> 18 <= d.age[i] < 65) &&
    (forall i :: 0 <= i < |d.orderQuantity| ==> 0 <= d.orderQuantity[i] < 10) &&
    (forall i :: 0 <= i < |d.priceCents| ==> 0 <= d.priceCents[i] <= 10000)
  }

  /** `np.random.randint(low, high, size=row_count)`. */
  function RandIntColumn(low: int, high: int, draw: nat -> nat): (c: seq<int>)
    requires low < high
    ensures |c| == RowCount && forall i :: 0 <= i < RowCount ==> low <= c[i] < high
    ensures forall i :: 0 <= i < RowCount ==> c[i] == RandInt(low, high, draw(i))
  {
    var c := seq(RowCount, i requires 0 <= i < RowCount => RandInt(low, high, draw(i)));
    assert forall i :: 0 <= i < RowCount ==> c[i] == RandInt(low, high, draw(i));
    c
  }

  /** `np.round(np.random.uniform(0.0, 100.0, size=row_count), 2)`, in cents. */
  function PriceColumn(draw: nat -> nat): (c: seq<int>)
    ensures |c| == RowCount && forall i :: 0 <= i < RowCount ==> 0 <= c[i] <= 10000
    ensures forall i :: 0 <= i < RowCount ==> c[i] == PriceCents(draw(i))
  {
    var c := seq(RowCount, i requires 0 <= i < RowCount => PriceCents(draw(i)));
    assert forall i :: 0 <= i < RowCount ==> c[i] == PriceCents(draw(i));
    c
  }

  /** `[fake.name() for _ in range(row_count)]` and likewise for cities. */
  function FakeColumn(fake: nat -> string): (c: seq<string>)
    ensures |c| == RowCount && forall i :: 0 <= i < RowCount ==> c[i] == fake(i)
  {
    seq(RowCount, i requires 0 <= i < RowCount => fake(i))
  }

  /** The `sample_data` dictionary; it fails exactly when one of the 100
      names has fewer than two pieces. */
  function GenerateSample(
    fakeName: nat -> string, fakeCity: nat -> string,
    ageDraw: nat -> nat, quantityDraw: nat -> nat, priceDraw: nat -> nat)
    : (r: Result<SampleData, GeneratorError>)
    ensures r.Failure? <==> exists i :: 0 <= i < RowCount && |Split(fakeName(i))| < 2
    ensures r.Success? ==> HasRowCount(r.value) && InBounds(r.value)
    ensures r.Success? ==> forall i :: 0 <= i < RowCount ==>
      r.value.customer[i] == fakeName(i) && DeriveEmail(r.value.customer[i]) == Success(r.value.email[i])
    ensures r.Success? ==> forall i :: 0 <= i < RowCount ==>
      r.value.city[i] == fakeCity(i) &&
      r.value.age[i] == RandInt(18, 65, ageDraw(i)) &&
      r.value.orderQuantity[i] == RandInt(0, 10, quantityDraw(i)) &&
      r.value.priceCents[i] == PriceCents(priceDraw(i))
  {
    var names := FakeColumn(fakeName);
    match DeriveEmails(names)
    case Failure(e) => Failure(e)
    case Success(emails) =>
      Success(SampleData(
        names,
        RandIntColumn(18, 65, ageDraw),
        FakeColumn(fakeCity),
        emails,
        RandIntColumn(0, 10, quantityDraw),
        PriceColumn(priceDraw)))
  }
}
