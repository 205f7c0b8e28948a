/** The version text of a cart, "order:revision", and its parser. */
module CartVersion {
  import opened Text

  datatype Version = Version(orderId: string, revision: int)

  /** `Number(text)` for trimmed integer numerals; None stands for NaN. */
  function ParseNumber(s: string): Option<int> {
    if s == "" then Some(0)
    else if s[0] == '-' then
      if |s| > 1 && AllDigits(s[1..]) then Some(0 - FromDecimal(s[1..])) else None
    else if s[0] == '+' then
      if |s| > 1 && AllDigits(s[1..]) then Some(FromDecimal(s[1..])) else None
    else if AllDigits(s) then Some(FromDecimal(s))
    else None
  }

  /** `raw.lastIndexOf(':')`, -1 when there is none. */
  function LastColon(s: string): (i: int)
    ensures -1 <= i < |s|
    ensures i >= 0 ==> s[i] == ':'
    ensures forall j :: i < j < |s| ==> s[j] != ':'
  {
    if s == "" then -1
    else if s[|s| - 1] == ':' then |s| - 1
    else LastColon(s[..|s| - 1])
  }

  function ParseCartVersion(version: string): Version {
    var raw := Trim(version);
    if raw == "" then Version("", 0)
    else
      var separator := LastColon(raw);
      if separator <= 0 then Version("", ParseNumber(raw).GetOr(0))
      else Version(Trim(raw[..separator]), ParseNumber(Trim(raw[separator + 1..])).GetOr(0))
  }

  function BuildCartVersion(orderId: string, revision: int): string {
    var id := Trim(orderId);
    (if id == "" then "local" else id) + ":" + ToDecimal(if revision < 0 then 0 else revision)
  }

  lemma DigitsAreTrimmed(s: string)
    requires AllDigits(s)
    ensures Trimmed(s)
  {
  }

  lemma JoinedVersion(id: string, digits: string)
    requires id != "" && Trimmed(id) && digits != "" && Trimmed(digits)
    requires forall j :: 0 <= j < |digits| ==> digits[j] != ':'
    ensures var raw := id + ":" + digits;
            Trimmed(raw) && LastColon(raw) == |id| && raw[..|id|] == id && raw[|id| + 1..] == digits
  {
    hide IsSpace;
    var raw := id + ":" + digits;
    assert raw[0] == id[0] && raw[|raw| - 1] == digits[|digits| - 1];
    assert raw[|id|] == ':';
    assert forall j :: |id| < j < |raw| ==> raw[j] == digits[j - |id| - 1];
  }

  lemma ParseDigits(s: string)
    requires s != "" && AllDigits(s)
    ensures ParseNumber(s) == Some(FromDecimal(s))
  {
    assert IsDigit(s[0]);
  }

  /** Every order id, colons included, and every revision come back; a blank id reads "local" and a
      negative revision reads zero. */
  lemma VersionRoundTrip(orderId: string, revision: int)
    ensures ParseCartVersion(BuildCartVersion(orderId, revision)) ==
      Version(if Trim(orderId) == "" then "local" else Trim(orderId), if revision < 0 then 0 else revision)
  {
    hide Trimmed, Trim, LastColon, ParseNumber, ToDecimal, IsSpace;
    var id := if Trim(orderId) == "" then "local" else Trim(orderId);
    var digits := ToDecimal(if revision < 0 then 0 else revision);
    LocalIsTrimmed();
    DigitsAreTrimmed(digits);
    assert forall j :: 0 <= j < |digits| ==> IsDigit(digits[j]);
    JoinedVersion(id, digits);
    ParseDigits(digits);
  }

  lemma LocalIsTrimmed()
    ensures Trimmed("local")
  {
  }

  ghost predicate NoColon(s: string) { forall j :: 0 <= j < |s| ==> s[j] != ':' }

  /** Outer blanks do not matter. */
  lemma ParseTrims(version: string)
    ensures ParseCartVersion(version) == ParseCartVersion(Trim(version))
    ensures ParseCartVersion("") == Version("", 0)
  {
    hide Trimmed, LastColon, ParseNumber;
    TrimNothing();
  }

  lemma TrimNothing()
    ensures Trim("") == ""
  {
  }

  lemma {:induction false} LastColonIs(before: string, after: string)
    requires NoColon(after)
    ensures LastColon(before + ":" + after) == |before|
  {
    var raw := before + ":" + after;
    assert raw[|before|] == ':';
    assert forall j :: |before| < j < |raw| ==> raw[j] == after[j - |before| - 1];
  }

  /** Before the last colon stands the order id, after it the revision, each without its blanks;
      anything that is not a number reads as zero, and nothing before the colon spoils the text. */
  lemma ParsedParts(id: string, text: string)
    requires Trimmed(id + ":" + text) && NoColon(text)
    ensures ParseCartVersion(id + ":" + text) ==
      if id == "" then Version("", 0) else Version(Trim(id), ParseNumber(Trim(text)).GetOr(0))
  {
    hide Trimmed, Trim, LastColon, IsSpace;
    var raw := id + ":" + text;
    LastColonIs(id, text);
    assert raw[..|id|] == id && raw[|id| + 1..] == text;
    if id == "" { assert raw[0] == ':' && !AllDigits(raw) by { assert !IsDigit(raw[0]); } }
  }

  /** Text without a colon is a revision of no order. */
  lemma ParsedNumber(text: string)
    requires text != "" && Trimmed(text) && NoColon(text)
    ensures ParseCartVersion(text) == Version("", ParseNumber(text).GetOr(0))
  {
  }

  /** A number may carry a sign; nothing else but digits makes one. */
  lemma ParseNumberIff(text: string, n: int)
    ensures ParseNumber(text) == Some(n) <==>
      || (text == "" && n == 0)
      || (text != "" && AllDigits(text) && n == FromDecimal(text))
      || (|text| > 1 && AllDigits(text[1..]) && text[0] == '+' && n == FromDecimal(text[1..]))
      || (|text| > 1 && AllDigits(text[1..]) && text[0] == '-' && n == 0 - FromDecimal(text[1..]))
  {
    hide FromDecimal;
    if text != "" && AllDigits(text) { assert IsDigit(text[0]); }
  }
}
