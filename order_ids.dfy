/**
 * Order identifiers (lanchonete.py, `Pedido.__init__`): ids are "PED" followed by
 * the order counter zero-padded to at least four decimal digits (`f"PED{n:04d}"`),
 * and an order built with an explicit id raises the counter to that id's number
 * (`int(id_pedido[3:])`).
 */
module OrderIds {
  import opened Optional
  import opened Validation

  lemma {:induction false} DigitsAppend(a: string, b: string)
    requires AllDigits(a) && AllDigits(b)
    ensures AllDigits(a + b)
    decreases |b|
  {
    if b != [] {
      assert (a + b)[..|a + b| - 1] == a + b[..|b| - 1];
      DigitsAppend(a, b[..|b| - 1]);
    } else {
      assert a + b == a;
    }
  }

  function DigitChar(d: nat): (c: char)
    requires d < 10
    ensures '0' <= c <= '9' && c as int - '0' as int == d
  {
    ('0' as int + d) as char
  }

  /** The decimal numeral of `n`, without leading zeros (`str(n)`). */
  function Decimal(n: nat): (s: string)
    ensures |s| > 0 && AllDigits(s)
    ensures n < 10 <==> |s| == 1
    ensures s[0] != '0' || n == 0
    decreases n
  {
    if n < 10 then
      assert [DigitChar(n)][..0] == [];
      [DigitChar(n)]
    else
      var s := Decimal(n / 10) + [DigitChar(n % 10)];
      assert s[..|s| - 1] == Decimal(n / 10);
      s
  }

  /** The number a string of decimal digits denotes (`int(s)` for plain digit strings). */
  function ValueOf(s: string): nat
    requires AllDigits(s)
    decreases |s|
  {
    if s == [] then 0 else ValueOf(s[..|s| - 1]) * 10 + (s[|s| - 1] as int - '0' as int)
  }

  function Zeros(k: nat): (z: string)
    ensures |z| == k && AllDigits(z)
  {
    if k == 0 then []
    else
      var z := Zeros(k - 1) + ['0'];
      assert z[..k - 1] == Zeros(k - 1);
      z
  }

  /** `f"{s:0>4}"`: pads a numeral on the left with zeros to at least four characters. */
  function PadTo4(s: string): (r: string)
    requires AllDigits(s)
    ensures AllDigits(r) && |r| == if |s| >= 4 then |s| else 4
  {
    if |s| >= 4 then
      s
    else
      DigitsAppend(Zeros(4 - |s|), s);
      Zeros(4 - |s|) + s
  }

  /** The padded numeral is the numeral behind the zeros that were added. */
  lemma PaddedIsZerosThenNumeral(s: string)
    requires AllDigits(s)
    ensures PadTo4(s) == Zeros(|PadTo4(s)| - |s|) + s
  {
    if |s| >= 4 {
      assert Zeros(0) + s == s;
    }
  }

  /** The id an automatically numbered order receives: `f"PED{n:04d}"`. */
  function FormatOrderId(n: nat): string {
    "PED" + PadTo4(Decimal(n))
  }

  /** The number of an id of the form "PED" + digits, if it has that form. */
  function ParseOrderId(id: string): Option<nat> {
    if |id| > 3 && id[..3] == "PED" && AllDigits(id[3..]) then Some(ValueOf(id[3..])) else None
  }

  lemma {:induction false} ValueOfDecimal(n: nat)
    ensures ValueOf(Decimal(n)) == n
    decreases n
  {
    if n >= 10 {
      var s := Decimal(n);
      assert s[..|s| - 1] == Decimal(n / 10);
      ValueOfDecimal(n / 10);
    }
  }

  lemma {:induction false} LeadingZerosIgnored(k: nat, s: string)
    requires AllDigits(s)
    ensures AllDigits(Zeros(k) + s) && ValueOf(Zeros(k) + s) == ValueOf(s)
    decreases |s|
  {
    DigitsAppend(Zeros(k), s);
    if s == [] {
      ZerosValue(k);
      assert Zeros(k) + s == Zeros(k);
    } else {
      var t := Zeros(k) + s;
      assert t[..|t| - 1] == Zeros(k) + s[..|s| - 1];
      LeadingZerosIgnored(k, s[..|s| - 1]);
    }
  }

  lemma {:induction false} ZerosValue(k: nat)
    ensures ValueOf(Zeros(k)) == 0
  {
    if k > 0 {
      assert Zeros(k)[..k - 1] == Zeros(k - 1);
      ZerosValue(k - 1);
    }
  }

  /** Round trip: the number of a generated id is the counter it was generated from. */
  lemma FormatThenParse(n: nat)
    ensures ParseOrderId(FormatOrderId(n)) == Some(n)
  {
    var id := FormatOrderId(n);
    var digits := PadTo4(Decimal(n));
    assert id[..3] == "PED" && id[3..] == digits;
    PaddedIsZerosThenNumeral(Decimal(n));
    LeadingZerosIgnored(|digits| - |Decimal(n)|, Decimal(n));
    ValueOfDecimal(n);
  }

  /** Distinct counter values give distinct ids. */
  lemma FormatInjective(m: nat, n: nat)
    requires FormatOrderId(m) == FormatOrderId(n)
    ensures m == n
  {
    FormatThenParse(m);
    FormatThenParse(n);
  }

  /** The outcome of numbering a new order: its id and the counter afterwards. */
  datatype Numbering = Numbering(id: string, counter: nat)

  /**
   * The id logic of `Pedido.__init__`: an empty `explicit` id means "none given" and
   * advances the counter; otherwise the explicit id is kept and the counter rises to its
   * number; `int(explicit[3:])` fails (Python's ValueError, here `None`) unless the
   * characters after the third are decimal digits.
   */
  function NumberOrder(counter: nat, explicit: string): (r: Option<Numbering>)
    ensures explicit == "" ==> r == Some(Numbering(FormatOrderId(counter + 1), counter + 1))
    ensures r.Some? ==> r.value.counter >= counter
    ensures r.Some? && explicit != "" ==> r.value.id == explicit
    ensures explicit != "" ==> (r.Some? <==> |explicit| > 3 && AllDigits(explicit[3..]))
    ensures r.Some? && explicit != "" ==>
              var n := ValueOf(explicit[3..]);
              r.value.counter == if n >= counter then n else counter
  {
    if explicit == "" then
      Some(Numbering(FormatOrderId(counter + 1), counter + 1))
    else
      var digits := if |explicit| >= 3 then explicit[3..] else "";
      if |digits| > 0 && AllDigits(digits) then
        var n := ValueOf(digits);
        Some(Numbering(explicit, if n >= counter then n else counter))
      else
        None
  }

  /**
   * After an order is built with the explicit id "PED" + digits, every automatically
   * numbered order gets a strictly larger number, so it cannot repeat that id.
   */
  lemma ExplicitIdPrecedesLaterIds(counter: nat, explicit: string)
    requires ParseOrderId(explicit).Some?
    ensures NumberOrder(counter, explicit).Some?
    ensures var c := NumberOrder(counter, explicit).value.counter;
            var next := NumberOrder(c, "").value.id;
            ParseOrderId(next).Some? && ParseOrderId(next).value > ParseOrderId(explicit).value
            && next != explicit
  {
    var c := NumberOrder(counter, explicit).value.counter;
    FormatThenParse(c + 1);
  }
}
