/**
 * The CPF value object (Cadastro de Pessoa Física): an immutable,
 * self-validating eleven-digit number with two mod-11 check digits.
 * A `CPF` can only hold a cleaned number that passed every check of `of`.
 */
module CpfNumbers {
  import opened Results
  import opened JavaText

  predicate AllDigits(s: string) {
    forall i :: 0 <= i < |s| ==> IsDigit(s[i])
  }

  /** `replaceAll("[^0-9]", "")`: the input with every non-digit removed. */
  function OnlyDigits(s: string): (r: string)
    ensures |r| <= |s|
    ensures AllDigits(r)
    ensures AllDigits(s) ==> r == s
  {
    if s == [] then [] else (if IsDigit(s[0]) then [s[0]] else []) + OnlyDigits(s[1..])
  }

  /** Removing non-digits commutes with concatenation. */
  lemma {:induction false} OnlyDigitsAppend(a: string, b: string)
    ensures OnlyDigits(a + b) == OnlyDigits(a) + OnlyDigits(b)
  {
    if a == [] {
      assert a + b == b;
    } else {
      assert (a + b)[0] == a[0];
      assert (a + b)[1..] == a[1..] + b;
      OnlyDigitsAppend(a[1..], b);
    }
  }

  /** `cleanCpf.matches("(\\d)\\1{10}")`: one digit written eleven times. */
  predicate RepeatedDigit(s: string) {
    |s| == 11 && IsDigit(s[0]) && forall i :: 0 <= i < 11 ==> s[i] == s[0]
  }

  /** The sum of digit(s[i]) * (top - i) over the first `n` digits. */
  function WeightedSum(s: string, n: nat, top: int): int
    requires n <= |s| && AllDigits(s[..n])
  {
    if n == 0 then 0
    else
      assert s[..n - 1] == s[..n][..n - 1];
      WeightedSum(s, n - 1, top) + DigitValue(s[n - 1]) * (top - (n - 1))
  }

  /** The check digit computed from the first `n` digits, weighted n + 1
      down to 2: eleven minus the sum modulo eleven, with 10 and 11 read as 0.
      The sum is never negative, so Java's `%` and Dafny's agree. */
  function CheckDigit(s: string, n: nat): (d: nat)
    requires n <= |s| && AllDigits(s[..n])
    ensures d <= 9
  {
    var d := 11 - WeightedSum(s, n, n + 1) % 11;
    if d >= 10 then 0 else d
  }

  /** Both check digits of a (cleaned) number are right: the first from
      digits 0..8 must be digit 9, the second from digits 0..9 digit 10. */
  predicate ChecksumHolds(s: string)
    requires |s| >= 11 && AllDigits(s)
  {
    && CheckDigit(s, 9) == DigitValue(s[9])
    && CheckDigit(s, 10) == DigitValue(s[10])
  }

  /** `CPF.isValidCPF`: the two accumulation loops. An index past the end
      throws inside the `try`, whose `catch` answers false. */
  method IsValidCpf(cpf: string) returns (valid: bool)
    requires AllDigits(cpf)
    ensures valid == (|cpf| >= 11 && ChecksumHolds(cpf))
  {
    if |cpf| < 11 {
      return false;
    }
    var sum := 0;
    for i := 0 to 9
      invariant sum == WeightedSum(cpf, i, 10)
    {
      sum := sum + DigitValue(cpf[i]) * (10 - i);
    }
    var firstDigit := 11 - sum % 11;
    firstDigit := if firstDigit >= 10 then 0 else firstDigit;
    if firstDigit != DigitValue(cpf[9]) {
      return false;
    }
    sum := 0;
    for i := 0 to 10
      invariant sum == WeightedSum(cpf, i, 11)
    {
      sum := sum + DigitValue(cpf[i]) * (11 - i);
    }
    var secondDigit := 11 - sum % 11;
    secondDigit := if secondDigit >= 10 then 0 else secondDigit;
    return secondDigit == DigitValue(cpf[10]);
  }

  /** What a `CPF` holds: eleven digits, not all equal, both check digits right. */
  predicate IsCpfNumber(v: string) {
    |v| == 11 && AllDigits(v) && !RepeatedDigit(v) && ChecksumHolds(v)
  }

  datatype CpfValue = CpfValue(value: string)

  /** A `CPF` exists only through `of`; its `value` is `getValue()` and
      `==` is `equals`, which compares the cleaned values. */
  type CPF = c: CpfValue | IsCpfNumber(c.value) witness CpfValue("12345678909")

  const BlankMessage := "CPF não pode ser nulo ou vazio"
  const LengthMessage := "CPF deve ter 11 dígitos"
  const RepeatedMessage := "CPF inválido: todos os dígitos são iguais"
  const InvalidPrefix := "CPF inválido: "

  /** The outcome of `CPF.of(raw)`: the four guards in the source's order. */
  function FromString(raw: Option<string>): (r: Result<CPF, Error>)
    ensures r.Success? <==> raw.Some? && !IsBlank(raw.value) && IsCpfNumber(OnlyDigits(raw.value))
    ensures r.Success? ==> r.value.value == OnlyDigits(raw.value)
    ensures raw.None? || IsBlank(raw.value) ==> r == Failure(IllegalArgument(BlankMessage))
    ensures raw.Some? && !IsBlank(raw.value) && |OnlyDigits(raw.value)| != 11 ==>
              r == Failure(IllegalArgument(LengthMessage))
    ensures raw.Some? && !IsBlank(raw.value) && RepeatedDigit(OnlyDigits(raw.value)) ==>
              r == Failure(IllegalArgument(RepeatedMessage))
    ensures raw.Some? && !IsBlank(raw.value) && |OnlyDigits(raw.value)| == 11 &&
            !RepeatedDigit(OnlyDigits(raw.value)) && !ChecksumHolds(OnlyDigits(raw.value)) ==>
              r == Failure(IllegalArgument(InvalidPrefix + raw.value))
  {
    if raw.None? || IsBlank(raw.value) then Failure(IllegalArgument(BlankMessage))
    else
      var clean := OnlyDigits(raw.value);
      if |clean| != 11 then Failure(IllegalArgument(LengthMessage))
      else if RepeatedDigit(clean) then Failure(IllegalArgument(RepeatedMessage))
      else if !ChecksumHolds(clean) then Failure(IllegalArgument(InvalidPrefix + raw.value))
      else Success(CpfValue(clean))
  }

  /** `CPF.of`: validates through the loop method `IsValidCpf`. */
  method Of(raw: Option<string>) returns (r: Result<CPF, Error>)
    ensures r == FromString(raw)
  {
    if raw.None? || IsBlank(raw.value) {
      return Failure(IllegalArgument(BlankMessage));
    }
    var cleanCpf := OnlyDigits(raw.value);
    if |cleanCpf| != 11 {
      return Failure(IllegalArgument(LengthMessage));
    }
    if RepeatedDigit(cleanCpf) {
      return Failure(IllegalArgument(RepeatedMessage));
    }
    var valid := IsValidCpf(cleanCpf);
    if !valid {
      return Failure(IllegalArgument(InvalidPrefix + raw.value));
    }
    return Success(CpfValue(cleanCpf));
  }

  /** `getFormatted`: XXX.XXX.XXX-XX. */
  function Formatted(c: CPF): (f: string)
    ensures |f| == 14 && f[3] == '.' && f[7] == '.' && f[11] == '-'
  {
    c.value[0..3] + "." + c.value[3..6] + "." + c.value[6..9] + "-" + c.value[9..11]
  }

  /** `toString` returns the formatted form. */
  function ToString(c: CPF): string {
    Formatted(c)
  }

  /** `getMasked`: only the last five digits show (the space after the
      second dot is in the source's format string). */
  function Masked(c: CPF): (m: string)
    ensures |m| == 15 && m[..9] == "***.***. " && m[12] == '-'
    ensures forall i :: 9 <= i < 15 && i != 12 ==> IsDigit(m[i])
  {
    "***.***. " + c.value[6..9] + "-" + c.value[9..11]
  }
}

/** What the CPF value object promises, proved about `CpfNumbers`. */
module CpfProperties {
  import opened Results
  import opened JavaText
  import opened CpfNumbers

  /** The sum of the weights top, top - 1, ..., top - n + 1. */
  function WeightTotal(n: nat, top: int): int {
    if n == 0 then 0 else WeightTotal(n - 1, top) + (top - (n - 1))
  }

  /** Copies of one digit k weigh k times the sum of the weights. */
  lemma {:induction false} RepeatedWeightedSum(s: string, n: nat, top: int, k: nat)
    requires n <= |s| && AllDigits(s[..n])
    requires forall i :: 0 <= i < n ==> DigitValue(s[i]) == k
    ensures WeightedSum(s, n, top) == k * WeightTotal(n, top)
  {
    if n > 0 {
      assert s[..n - 1] == s[..n][..n - 1];
      RepeatedWeightedSum(s, n - 1, top, k);
      assert DigitValue(s[n - 1]) == k;
      assert k * WeightTotal(n, top) == k * WeightTotal(n - 1, top) + k * (top - (n - 1));
    }
  }

  /** Every number of one repeated digit passes BOTH check digits: it is the
      repetition guard of `of`, and not the checksum, that rejects them. */
  lemma RepeatedDigitsPassChecksum(s: string)
    requires RepeatedDigit(s)
    ensures ChecksumHolds(s)
  {
    var k := DigitValue(s[0]);
    RepeatedWeightedSum(s, 9, 10, k);
    RepeatedWeightedSum(s, 10, 11, k);
    assert WeightTotal(9, 10) == 54 && WeightTotal(10, 11) == 65;
    RepeatedCheckDigit(54, 4, k);
    RepeatedCheckDigit(65, 5, k);
  }

  /** With a weight total of 11q + 10, the check digit of k copies of digit k is k. */
  lemma RepeatedCheckDigit(total: int, q: int, k: nat)
    requires k <= 9 && total == 11 * q + 10
    ensures var d := 11 - (k * total) % 11; (if d >= 10 then 0 else d) == k
  {
    if k != 0 {
      assert k * total == 11 * (k * q + k - 1) + (11 - k);
    }
  }

  /** Removing the separators of the XXX.XXX.XXX-XX layout leaves the digit groups. */
  lemma OnlyDigitsOfLayout(a: string, b: string, c: string, d: string)
    requires AllDigits(a) && AllDigits(b) && AllDigits(c) && AllDigits(d)
    ensures OnlyDigits(a + "." + b + "." + c + "-" + d) == a + b + c + d
  {
    OnlyDigitsAround(a, '.', b);
    OnlyDigitsAround(a + "." + b, '.', c);
    OnlyDigitsAround(a + "." + b + "." + c, '-', d);
  }

  /** A separator between two texts disappears and the texts' digits stay. */
  lemma OnlyDigitsAround(x: string, sep: char, y: string)
    requires !IsDigit(sep)
    ensures OnlyDigits(x + [sep] + y) == OnlyDigits(x) + OnlyDigits(y)
  {
    assert OnlyDigits([sep]) == [];
    OnlyDigitsAppend(x, [sep]);
    OnlyDigitsAppend(x + [sep], y);
  }

  /** `getFormatted` only inserts separators: removing them gives the value back. */
  lemma FormattedDigits(c: CPF)
    ensures OnlyDigits(Formatted(c)) == c.value
  {
    var v := c.value;
    assert AllDigits(v[0..3]) && AllDigits(v[3..6]) && AllDigits(v[6..9]) && AllDigits(v[9..11]);
    OnlyDigitsOfLayout(v[0..3], v[3..6], v[6..9], v[9..11]);
    assert v[0..3] + v[3..6] + v[6..9] + v[9..11] == v;
  }

  /** `CPF.of(cpf.getFormatted())` is `cpf` again, and `toString` is the same text. */
  lemma FormattedRoundTrip(c: CPF)
    ensures FromString(Some(Formatted(c))) == Success(c)
    ensures ToString(c) == Formatted(c)
  {
    FormattedDigits(c);
    var f := Formatted(c);
    assert f[0] == c.value[0];
    assert !IsWhitespace(f[0]);
  }

  /** A stored value is accepted again as it is: `of(cpf.getValue())` equals `cpf`. */
  lemma ValueRoundTrip(c: CPF)
    ensures FromString(Some(c.value)) == Success(c)
  {
    assert !IsWhitespace(c.value[0]);
  }

  /** Two spellings are the same CPF exactly when their digits agree. */
  lemma EqualIffSameDigits(a: string, b: string)
    requires FromString(Some(a)).Success? && FromString(Some(b)).Success?
    ensures FromString(Some(a)) == FromString(Some(b)) <==> OnlyDigits(a) == OnlyDigits(b)
  {
  }

  /** `getMasked` shows the last five digits as `getFormatted` does, and
      nothing of the first six. */
  lemma MaskedShowsLastFive(c: CPF, other: CPF)
    ensures Masked(c) == "***.***. " + Formatted(c)[8..]
    ensures c.value[6..] == other.value[6..] ==> Masked(c) == Masked(other)
  {
    assert Formatted(c)[8..] == c.value[6..9] + "-" + c.value[9..11];
    if c.value[6..] == other.value[6..] {
      assert c.value[6..9] == c.value[6..][0..3] == other.value[6..9];
      assert c.value[9..11] == c.value[6..][3..5] == other.value[9..11];
    }
  }

  /** A digit string of eleven digits, not all equal, with both check
      digits right is accepted as it is. */
  lemma AcceptedAsIs(v: string)
    requires |v| == 11 && AllDigits(v) && !RepeatedDigit(v) && ChecksumHolds(v)
    ensures FromString(Some(v)) == Success(CpfValue(v))
  {
    assert !IsWhitespace(v[0]);
  }

  /** `12345678909`, the number most of the source's tests use, is accepted. */
  lemma Accepts12345678909(v: string)
    requires v == "12345678909"
    ensures IsCpfNumber(v)
    ensures FromString(Some(v)) == Success(CpfValue(v))
  {
    assert AllDigits(v);
    assert CheckDigit("12345678909", 9) == 0;
    assert CheckDigit("12345678909", 10) == 9;
    assert v[10] != v[0];
    AcceptedAsIs(v);
  }

  /** `11144477735` is accepted. */
  lemma Accepts11144477735(v: string)
    requires v == "11144477735"
    ensures IsCpfNumber(v)
    ensures FromString(Some(v)) == Success(CpfValue(v))
  {
    assert AllDigits(v);
    assert ChecksumHolds("11144477735");
    assert v[10] != v[0];
    AcceptedAsIs(v);
  }

  /** `98765432100` is accepted. */
  lemma Accepts98765432100(v: string)
    requires v == "98765432100"
    ensures IsCpfNumber(v)
    ensures FromString(Some(v)) == Success(CpfValue(v))
  {
    assert AllDigits(v);
    assert CheckDigit("98765432100", 9) == 0;
    assert CheckDigit("98765432100", 10) == 0;
    assert v[10] != v[0];
    AcceptedAsIs(v);
  }

  /** `52998224725`, whose first and last digits agree, is accepted as it is. */
  lemma Accepts52998224725(v: string)
    requires v == "52998224725"
    ensures FromString(Some(v)) == Success(CpfValue(v))
  {
    assert AllDigits(v) && v[1] != v[0];
    assert ChecksumHolds("52998224725");
    AcceptedAsIs(v);
  }

  /** `12345678909` formats and masks as the source's tests expect. */
  lemma FormatsAndMasks12345678909(c: CPF)
    requires c.value == "12345678909"
    ensures Formatted(c) == "123.456.789-09"
    ensures Masked(c) == "***.***. 789-09"
  {
    var v := c.value;
    assert v[0..3] == "123" && v[3..6] == "456" && v[6..9] == "789" && v[9..11] == "09";
  }

  /** `123.456.789-09` is the same CPF as `12345678909`. */
  lemma AcceptsFormatted12345678909(v: string)
    requires v == "12345678909"
    ensures FromString(Some("123.456.789-09")) == Success(CpfValue(v))
  {
    Accepts12345678909(v);
    var c: CPF := CpfValue(v);
    FormatsAndMasks12345678909(c);
    FormattedRoundTrip(c);
  }

  /** `11144477735` formats as `111.444.777-35`. */
  lemma Formats11144477735(c: CPF)
    requires c.value == "11144477735"
    ensures Formatted(c) == "111.444.777-35"
  {
    var v := c.value;
    assert v[0..3] == "111" && v[3..6] == "444" && v[6..9] == "777" && v[9..11] == "35";
  }

  /** `111.444.777-35` is the same CPF as `11144477735`. */
  lemma AcceptsFormatted11144477735(v: string)
    requires v == "11144477735"
    ensures FromString(Some("111.444.777-35")) == Success(CpfValue(v))
  {
    Accepts11144477735(v);
    var c: CPF := CpfValue(v);
    Formats11144477735(c);
    FormattedRoundTrip(c);
  }

  /** A digit string that fails the checksum is rejected with the input in the message. */
  lemma RejectedByChecksum(v: string)
    requires |v| == 11 && AllDigits(v) && !RepeatedDigit(v) && !ChecksumHolds(v)
    ensures FromString(Some(v)) == Failure(IllegalArgument(InvalidPrefix + v))
  {
    assert !IsWhitespace(v[0]);
  }

  /** `12345678900` has the wrong second check digit. */
  lemma RejectsWrongCheckDigit()
    ensures FromString(Some("12345678900")) == Failure(IllegalArgument(InvalidPrefix + "12345678900"))
  {
    var v := "12345678900";
    assert AllDigits(v);
    assert CheckDigit(v, 10) == 9;
    assert v[10] != v[0];
    RejectedByChecksum(v);
  }

  /** `12345678901`, whose first and last digits agree, fails the checksum. */
  lemma RejectsSameEndsWrongCheckDigit(v: string)
    requires v == "12345678901"
    ensures FromString(Some(v)) == Failure(IllegalArgument(InvalidPrefix + v))
  {
    assert AllDigits(v) && v[1] != v[0];
    assert CheckDigit("12345678901", 10) == 9;
    RejectedByChecksum(v);
  }

  /** Null and blank input are rejected before anything else. */
  lemma RejectsBlank()
    ensures FromString(None) == Failure(IllegalArgument(BlankMessage))
    ensures FromString(Some("")) == Failure(IllegalArgument(BlankMessage))
    ensures FromString(Some("  ")) == Failure(IllegalArgument(BlankMessage))
  {
  }

  /** A digit string of the wrong length is rejected for its length. */
  lemma RejectedForLength(v: string)
    requires 0 < |v| != 11 && AllDigits(v)
    ensures FromString(Some(v)) == Failure(IllegalArgument(LengthMessage))
  {
    assert !IsWhitespace(v[0]);
  }

  /** Nine and twelve digits are the wrong length. */
  lemma RejectsWrongLength()
    ensures FromString(Some("123456789")) == Failure(IllegalArgument(LengthMessage))
    ensures FromString(Some("123456789012")) == Failure(IllegalArgument(LengthMessage))
  {
    var a, b := "123456789", "123456789012";
    assert AllDigits(a) && AllDigits(b);
    RejectedForLength(a);
    RejectedForLength(b);
  }

  /** Eleven ones are rejected for repetition, though they pass the checksum. */
  lemma RejectsElevenOnes()
    ensures FromString(Some("11111111111")) == Failure(IllegalArgument(RepeatedMessage))
  {
    var v := "11111111111";
    assert !IsWhitespace(v[0]) && AllDigits(v);
    assert RepeatedDigit(v);
  }

  /** A formatted spelling of one repeated digit is rejected for repetition. */
  lemma RepeatedLayoutRejected(a: string, b: string, c: string, d: string)
    requires |a| > 0 && AllDigits(a) && AllDigits(b) && AllDigits(c) && AllDigits(d)
    requires RepeatedDigit(a + b + c + d)
    ensures FromString(Some(a + "." + b + "." + c + "-" + d)) == Failure(IllegalArgument(RepeatedMessage))
  {
    OnlyDigitsOfLayout(a, b, c, d);
    assert (a + "." + b + "." + c + "-" + d)[0] == a[0];
    assert !IsWhitespace(a[0]);
  }

  /** `000.000.000-00` is rejected for repetition once its separators are gone. */
  lemma RejectsFormattedZeros()
    ensures FromString(Some("000.000.000-00")) == Failure(IllegalArgument(RepeatedMessage))
  {
    assert AllDigits("000") && AllDigits("00");
    assert RepeatedDigit("00000000000");
    assert "000" + "000" + "000" + "00" == "00000000000";
    RepeatedLayoutRejected("000", "000", "000", "00");
    assert "000" + "." + "000" + "." + "000" + "-" + "00" == "000.000.000-00";
  }
}
