/**
 * The PromptPay QR image address of the payment page. The payload is laid
 * out after the data objects of the EMVCo QR Code Specification for Payment
 * Systems, Merchant-Presented Mode (section 4, Data Objects Definition), but
 * the builder is not conformant: no tag 54 header precedes the amount and no
 * CRC value follows tag 63. The model builds the string the code builds.
 */
module PromptPay {
  import opened Wrappers
  import opened Decimal

  const QrServerUrl := "https://api.qrserver.com/v1/create-qr-code/?size=300x300&data="

  /** Payload format, point of initiation, and the merchant template up to the phone's "0066" prefix. */
  const MerchantHeader := "00020101021129370016A00000067701011101130066"

  /** Country code "TH" (tag 58) and currency 764, the baht (tag 53). */
  const CountryCurrency := "5802TH5303764"

  /** The CRC tag and length, with no CRC value after them. */
  const CrcTag := "6304"

  /** The phone number the payment page passes. */
  const DemoPhone := "0812345678"

  /** A whole amount written with two decimals and the point removed: its digits and "00". */
  function AmountField(amount: nat): (s: string)
    ensures AllDigits(s) && |s| >= 3 && s[|s| - 2..] == "00"
    ensures ParseNat(s) == 100 * amount
  {
    ParseDigits(amount);
    ParseTwoZeros(Digits(amount));
    Digits(amount) + "00"
  }

  /** `generatePromptPayQR(phone, amount)`: the empty string for a non-positive amount. */
  function GeneratePromptPayQR(phone: string, amount: int): (url: string)
    ensures url == "" <==> amount <= 0
  {
    if amount <= 0 then ""
    else QrServerUrl + MerchantHeader + phone + CountryCurrency + AmountField(amount) + CrcTag
  }

  /** What an address of the builder's shape carries. */
  datatype QrData = QrData(phone: string, amount: nat)

  /** The position of the last character of `s` that is not a decimal digit. */
  function LastNonDigit(s: string): (r: Option<nat>)
    ensures r.Some? ==> r.value < |s| && !IsDigit(s[r.value]) && AllDigits(s[r.value + 1..])
    ensures r.None? ==> AllDigits(s)
  {
    if s == [] then None
    else if !IsDigit(s[|s| - 1]) then Some(|s| - 1)
    else
      var r := LastNonDigit(s[..|s| - 1]);
      assert forall i :: 0 <= i < |s| - 1 ==> s[..|s| - 1][i] == s[i];
      r
  }

  lemma {:induction false} LastNonDigitAt(p: string, c: char, d: string)
    requires !IsDigit(c) && AllDigits(d)
    ensures LastNonDigit(p + [c] + d) == Some(|p|)
    decreases |d|
  {
    var s := p + [c] + d;
    if d == [] {
      assert s[|s| - 1] == c;
    } else {
      var d' := d[..|d| - 1];
      assert s[|s| - 1] == d[|d| - 1];
      assert s[..|s| - 1] == p + [c] + d';
      LastNonDigitAt(p, c, d');
    }
  }

  const Head := QrServerUrl + MerchantHeader
  const Tail := "00" + CrcTag

  /** An address of the builder's shape, split as head, body and tail; the body is phone, country-currency and digits. */
  function SplitUrl(url: string): (body: Option<string>)
    ensures body.Some? ==> url == Head + body.value + Tail
  {
    if |url| < |Head| + |Tail| || url[..|Head|] != Head || url[|url| - |Tail|..] != Tail then None
    else
      var body := url[|Head|..|url| - |Tail|];
      assert url == url[..|Head|] + body + url[|url| - |Tail|..];
      Some(body)
  }

  lemma SplitUrlJoined(body: string)
    ensures SplitUrl(Head + body + Tail) == Some(body)
  {
    var url := Head + body + Tail;
    assert url[..|Head|] == Head;
    assert url[|url| - |Tail|..] == Tail;
    assert url[|Head|..|url| - |Tail|] == body;
  }

  /** The phone and amount of a body. After the phone only digits follow the "H" of "TH", so that "H" is the last non-digit. */
  function SplitBody(body: string): (r: Option<QrData>)
    ensures r.Some? ==> r.value.amount > 0 && body == r.value.phone + CountryCurrency + Digits(r.value.amount)
  {
    match LastNonDigit(body)
    case None => None
    case Some(h) =>
      if h < 5 || |body| < h + 9 || body[h - 5..h + 8] != CountryCurrency then None
      else
        var digits := body[h + 8..];
        assert forall i :: 0 <= i < |digits| ==> digits[i] == body[h + 1..][i + 7];
        var amount := ParseNat(digits);
        if amount == 0 || Digits(amount) != digits then None
        else
          assert body == body[..h - 5] + body[h - 5..h + 8] + digits;
          Some(QrData(body[..h - 5], amount))
  }

  lemma SplitBodyJoined(phone: string, amount: nat)
    requires amount > 0
    ensures SplitBody(phone + CountryCurrency + Digits(amount)) == Some(QrData(phone, amount))
  {
    var digits := Digits(amount);
    var body := phone + CountryCurrency + digits;
    var after := "5303764" + digits;
    assert AllDigits(after);
    assert body == (phone + "5802T") + ['H'] + after;
    LastNonDigitAt(phone + "5802T", 'H', after);
    var h := |phone| + 5;
    assert body[h - 5..h + 8] == CountryCurrency;
    assert body[h + 8..] == digits;
    assert body[..h - 5] == phone;
    ParseDigits(amount);
  }

  /** Reads an address of the builder's shape back into its phone and amount. */
  function ReadQR(url: string): (r: Option<QrData>)
    ensures r.Some? ==> r.value.amount > 0
  {
    match SplitUrl(url)
    case None => None
    case Some(body) => SplitBody(body)
  }

  lemma GeneratedShape(phone: string, amount: int)
    requires amount > 0
    ensures GeneratePromptPayQR(phone, amount) == Head + (phone + CountryCurrency + Digits(amount)) + Tail
  {
    var a := Digits(amount);
    assert QrServerUrl + MerchantHeader + phone + CountryCurrency + (a + "00") + CrcTag
        == (QrServerUrl + MerchantHeader) + (phone + CountryCurrency + a) + ("00" + CrcTag);
  }

  /** Every address built for a positive amount reads back as its phone and amount. */
  lemma ReadGenerated(phone: string, amount: int)
    requires amount > 0
    ensures ReadQR(GeneratePromptPayQR(phone, amount)) == Some(QrData(phone, amount))
  {
    GeneratedShape(phone, amount);
    SplitUrlJoined(phone + CountryCurrency + Digits(amount));
    SplitBodyJoined(phone, amount);
  }

  /** Every address that reads back is the one built for what it reads as. */
  lemma GeneratedRead(url: string, d: QrData)
    requires ReadQR(url) == Some(d)
    ensures d.amount > 0 && GeneratePromptPayQR(d.phone, d.amount) == url
  {
    GeneratedShape(d.phone, d.amount);
  }

  /** Distinct phone-amount pairs with positive amounts get distinct addresses. */
  lemma GenerateInjective(p1: string, a1: int, p2: string, a2: int)
    requires a1 > 0 && a2 > 0
    requires GeneratePromptPayQR(p1, a1) == GeneratePromptPayQR(p2, a2)
    ensures p1 == p2 && a1 == a2
  {
    ReadGenerated(p1, a1);
    ReadGenerated(p2, a2);
  }
}
