/** Amounts in dong: small integers are read as thousands, and amounts print with separators. */
module Money {
  import opened Text

  function Abs(x: int): nat { if x < 0 then -x else x }

  /** `normalizeVndAmount` on integers. */
  function NormalizeVndAmount(amount: int): (r: int)
    ensures r == 0 || Abs(r) >= 1000
    ensures (amount == 0 || Abs(amount) >= 1000) ==> r == amount
    ensures r == amount || r == 1000 * amount
    ensures r < 0 <==> amount < 0
  {
    if amount == 0 then 0
    else if Abs(amount) < 1000 then amount * 1000
    else amount
  }

  /** The separator goes before position `i` when there is something before it and a positive
      multiple of three digits from it to the end. */
  predicate SeparatorAt(length: nat, i: nat) {
    0 < i < length && (length - i) % 3 == 0
  }

  /** `s.replace(/\B(?=(\d{3})+(?!\d))/g, ',')` on a string of digits, from position `i` on. */
  function InsertFrom(s: string, i: nat): string
    requires i <= |s|
    decreases |s| - i
  {
    if i == |s| then ""
    else (if SeparatorAt(|s|, i) then "," else "") + [s[i]] + InsertFrom(s, i + 1)
  }

  function InsertSeparators(s: string): string { InsertFrom(s, 0) }

  function FormatVnd(value: int): string {
    var amount := NormalizeVndAmount(value);
    if amount == 0 then "0đ"
    else (if amount < 0 then "-" else "") + InsertSeparators(ToDecimal(Abs(amount))) + "đ"
  }

  // ----- reading an amount back -----

  function RemoveSeparators(s: string): (r: string)
  {
    if s == "" then ""
    else (if s[0] == ',' then "" else [s[0]]) + RemoveSeparators(s[1..])
  }

  /** Deletes the suffix and the separators and reads the digits. */
  function ReadVnd(text: string): Option<int> {
    if text == "" then None
    else
      var body := text[..|text| - 1];
      var negative := body != "" && body[0] == '-';
      var digits := RemoveSeparators(if negative then body[1..] else body);
      if digits == "" || !AllDigits(digits) then None
      else Some(if negative then 0 - FromDecimal(digits) else FromDecimal(digits))
  }

  lemma RemoveCons(c: char, rest: string)
    ensures RemoveSeparators([c] + rest) == if c == ',' then RemoveSeparators(rest) else [c] + RemoveSeparators(rest)
  {
    assert ([c] + rest)[1..] == rest;
  }

  lemma InsertCons(s: string, i: nat)
    requires i < |s|
    ensures InsertFrom(s, i) ==
      if SeparatorAt(|s|, i) then [','] + ([s[i]] + InsertFrom(s, i + 1)) else [s[i]] + InsertFrom(s, i + 1)
  {
  }

  lemma {:induction false} RemoveInserted(s: string, i: nat)
    requires i <= |s| && AllDigits(s)
    ensures RemoveSeparators(InsertFrom(s, i)) == s[i..]
    decreases |s| - i
  {
    hide RemoveSeparators, InsertFrom, SeparatorAt;
    if i == |s| {
      NothingInserted(s);
    } else {
      RemoveInserted(s, i + 1);
      InsertCons(s, i);
      assert IsDigit(s[i]);
      RemoveCons(s[i], InsertFrom(s, i + 1));
      RemoveCons(',', [s[i]] + InsertFrom(s, i + 1));
      assert s[i..] == [s[i]] + s[i + 1..];
    }
  }

  lemma NothingInserted(s: string)
    ensures InsertFrom(s, |s|) == "" && RemoveSeparators("") == ""
  {
  }

  lemma InsertedStart(s: string)
    requires s != "" && AllDigits(s)
    ensures InsertSeparators(s) != "" && InsertSeparators(s)[0] == s[0]
  {
  }

  /** Printing loses nothing but the reading of small amounts as thousands. */
  lemma FormatRoundTrip(value: int)
    ensures ReadVnd(FormatVnd(value)) == Some(NormalizeVndAmount(value))
  {
    hide InsertSeparators, RemoveSeparators, ToDecimal, NormalizeVndAmount, FromDecimal, ReadVnd;
    var amount := NormalizeVndAmount(value);
    if amount == 0 {
      ReadZero();
    } else {
      var digits := ToDecimal(Abs(amount));
      InsertedStart(digits);
      DigitsComeBack(digits);
      ReadPrinted(digits, InsertSeparators(digits), amount < 0);
    }
  }

  lemma ReadZero()
    ensures ReadVnd("0đ") == Some(0)
  {
    assert "0đ"[..1] == "0";
    RemoveCons('0', "");
    assert ['0'] + "" == "0" && FromDecimal("0") == 0;
  }

  lemma ReadPrinted(digits: string, printed: string, negative: bool)
    requires digits != "" && AllDigits(digits) && printed != "" && IsDigit(printed[0])
    requires RemoveSeparators(printed) == digits
    ensures ReadVnd((if negative then "-" else "") + printed + "đ") ==
      Some(if negative then 0 - FromDecimal(digits) else FromDecimal(digits))
  {
    hide RemoveSeparators, FromDecimal;
    var text := (if negative then "-" else "") + printed + "đ";
    if negative {
      assert text[..|text| - 1] == "-" + printed;
      assert ("-" + printed)[1..] == printed;
    } else {
      assert text[..|text| - 1] == printed;
    }
  }

  lemma DigitsComeBack(digits: string)
    requires AllDigits(digits)
    ensures RemoveSeparators(InsertSeparators(digits)) == digits
  {
    RemoveInserted(digits, 0);
  }

  /** Two amounts print alike exactly when they are the same amount of money. */
  lemma FormatEqualIff(a: int, b: int)
    ensures FormatVnd(a) == FormatVnd(b) <==> NormalizeVndAmount(a) == NormalizeVndAmount(b)
  {
    hide FormatVnd, ReadVnd, NormalizeVndAmount;
    FormatRoundTrip(a);
    FormatRoundTrip(b);
    if NormalizeVndAmount(a) == NormalizeVndAmount(b) { FormatDependsOnAmount(a, b); }
  }

  lemma FormatDependsOnAmount(a: int, b: int)
    requires NormalizeVndAmount(a) == NormalizeVndAmount(b)
    ensures FormatVnd(a) == FormatVnd(b)
  {
  }

  /** Two integers are the same amount of money exactly when they are equal or one is the other
      written in thousands. */
  lemma SameAmountIff(a: int, b: int)
    ensures NormalizeVndAmount(a) == NormalizeVndAmount(b) <==>
      || a == b
      || (0 < Abs(a) < 1000 && b == a * 1000)
      || (0 < Abs(b) < 1000 && a == b * 1000)
  {
  }

  // ----- where the separators are -----

  /** Separators stand exactly at every fourth position from the end. */
  lemma {:induction false} SeparatorPositions(s: string, i: nat, p: nat)
    requires i <= |s| && AllDigits(s) && p < |InsertFrom(s, i)|
    ensures InsertFrom(s, i)[p] == ',' <==> (|InsertFrom(s, i)| - p) % 4 == 0
    decreases |s| - i
  {
    hide InsertFrom;
    if i < |s| {
      InsertedLength(s, i);
      InsertedLength(s, i + 1);
      InsertCons(s, i);
      assert IsDigit(s[i]);
      var lead := if SeparatorAt(|s|, i) then 2 else 1;
      if p >= lead {
        SeparatorPositions(s, i + 1, p - lead);
      }
    } else {
      NothingInserted(s);
    }
  }

  lemma {:induction false} InsertedLength(s: string, i: nat)
    requires i <= |s|
    ensures |InsertFrom(s, i)| == (|s| - i) + if i == 0 then (if |s| == 0 then 0 else (|s| - 1) / 3) else (|s| - i) / 3
    decreases |s| - i
  {
    if i < |s| { InsertedLength(s, i + 1); }
  }

  /** The same for a whole printed amount: behind a sign and before the suffix there are digits, with a
      separator exactly at every fourth position from the last digit. */
  lemma PrintedAmount(value: int, p: nat)
    requires p < |FormatVnd(value)|
    ensures var text := FormatVnd(value);
            var last := |text| - 1;
            && (text[p] == 'đ' <==> p == last)
            && (text[p] == '-' <==> p == 0 && value < 0)
            && (text[p] == ',' <==> 0 < p < last && (last - p) % 4 == 0)
            && (p != last && text[p] !in {'-', ','} ==> IsDigit(text[p]))
  {
    hide InsertFrom, ToDecimal, SeparatorAt;
    var amount := NormalizeVndAmount(value);
    if amount != 0 {
      var digits := ToDecimal(Abs(amount));
      var printed, sign := InsertSeparators(digits), if amount < 0 then 1 else 0;
      InsertedLength(digits, 0);
      assert FormatVnd(value)[|FormatVnd(value)| - 1] == 'đ';
      if sign <= p < |printed| + sign {
        assert FormatVnd(value)[p] == printed[p - sign];
        SeparatorPositions(digits, 0, p - sign);
        InsertedCharacters(digits, 0, p - sign);
        InsertedStart(digits);
      }
    }
  }

  lemma {:induction false} InsertedCharacters(s: string, i: nat, p: nat)
    requires i <= |s| && AllDigits(s) && p < |InsertFrom(s, i)|
    ensures InsertFrom(s, i)[p] == ',' || IsDigit(InsertFrom(s, i)[p])
    decreases |s| - i
  {
    hide InsertFrom;
    if i < |s| {
      InsertCons(s, i);
      assert IsDigit(s[i]);
      var lead := if SeparatorAt(|s|, i) then 2 else 1;
      if p >= lead { InsertedCharacters(s, i + 1, p - lead); }
    } else {
      NothingInserted(s);
    }
  }
}
