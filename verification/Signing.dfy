/** Signed download links: what is signed, when a link verifies, and what a signature binds. */
module Signing {
  import opened Wrappers
  import opened Text

  const MAX_SAFE := 0x20_0000_0000_0000

  function DigitOf(d: nat): char
    requires d < 10
  {
    "0123456789"[d]
  }

  function DigitValue(c: char): Option<nat> {
    if '0' <= c <= '9' then Some(c as int - '0' as int) else None
  }

  function PrintNat(n: nat): string {
    if n < 10 then [DigitOf(n)] else PrintNat(n / 10) + [DigitOf(n % 10)]
  }

  /** An integer as JavaScript prints it in a template string. */
  function Print(i: int): string {
    if i < 0 then "-" + PrintNat(-i) else PrintNat(i)
  }

  function ParseDigits(s: string): Option<nat> {
    if s == "" then None
    else
      var d := DigitValue(s[|s| - 1]);
      if d.None? then None
      else if |s| == 1 then d
      else
        var front := ParseDigits(s[..|s| - 1]);
        if front.None? then None else Some(front.value * 10 + d.value)
  }

  function Negated(n: Option<int>): Option<int> {
    if n.None? then None else Some(-n.value)
  }

  function ParseInteger(s: string): Option<int> {
    if s != "" && s[0] == '-' then Negated(ParseDigits(s[1..]))
    else if s != "" && s[0] == '+' then ParseDigits(s[1..])
    else ParseDigits(s)
  }

  /**
   * A finite number: an integer that doubles hold exactly, or any other, known by the text it prints as
   * and by its floor.
   */
  datatype Number = Safe(i: int) | Other(text: OtherText, floor: int)

  predicate IsSafe(i: int) {
    -MAX_SAFE <= i <= MAX_SAFE
  }

  ghost predicate IsOtherText(s: string) {
    '\n' !in s && forall i :: IsSafe(i) ==> s != Print(i)
  }

  type OtherText = s: string | IsOtherText(s) ghost witness OtherTextWitness()

  ghost function OtherTextWitness(): (s: string)
    ensures IsOtherText(s)
  {
    PrintIsNotDot();
    "."
  }

  lemma PrintIsNotDot()
    ensures IsOtherText(".")
  {
    forall i: int
      ensures Print(i) != "."
    {
      PrintRoundTrip(i);
      assert ParseInteger(".") == None;
    }
  }

  function TextOf(x: Number): string {
    match x
    case Safe(i) => Print(i)
    case Other(text, _) => text
  }

  /**
   * `Number(s)`: white space around an integer literal is ignored and nothing but white space is zero.
   * Fractions, exponents, other radixes and integers beyond the safe range are the host's `exotic`;
   * `None` there is NaN or an infinity.
   */
  function NumberOf(s: string, exotic: string -> Option<Number>): Option<Number> {
    var t := Trim(s);
    if t == "" then Some(Safe(0))
    else
      var i := ParseInteger(t);
      if i.Some? && IsSafe(i.value) then Some(Safe(i.value)) else exotic(t)
  }

  predicate Before(x: Number, n: int) {
    match x
    case Safe(i) => i < n
    case Other(_, floor) => floor < n
  }

  function MessageOf(key: string, expires: Number): string {
    key + "\n" + TextOf(expires)
  }

  datatype Link = Link(key: string, expires: int, signature: string)

  datatype Reason = Missing | Expired | Invalid

  datatype Verification = Accepted | Rejected(reason: Reason)

  /** Times are in milliseconds; division rounds down as Math.floor does. */
  function CreateSignedLink(key: string, ttlSeconds: int, now: int, mac: string -> string): Link {
    var expires := now / 1000 + ttlSeconds;
    Link(key, expires, mac(MessageOf(key, Safe(expires))))
  }

  function VerifySignedLink(
    key: string, expires: Option<string>, signature: Option<string>, now: int,
    mac: string -> string, exotic: string -> Option<Number>): Verification
  {
    if expires.None? || expires.value == "" || signature.None? || signature.value == "" then Rejected(Missing)
    else
      var n := NumberOf(expires.value, exotic);
      if n.None? then Rejected(Invalid)
      else if Before(n.value, now / 1000) then Rejected(Expired)
      else if signature.value == mac(MessageOf(key, n.value)) then Accepted
      else Rejected(Invalid)
  }

  predicate AllDigits(s: string) {
    s != "" && forall c :: c in s ==> '0' <= c <= '9'
  }

  lemma {:induction false} PrintNatRoundTrip(n: nat)
    ensures ParseDigits(PrintNat(n)) == Some(n) && AllDigits(PrintNat(n))
  {
    var q, r := n / 10, n % 10;
    DigitRoundTrip(r);
    if n >= 10 {
      PrintNatRoundTrip(q);
      DigitsSnoc(PrintNat(q), DigitOf(r));
    }
  }

  lemma DigitsSnoc(front: string, last: char)
    requires AllDigits(front) && '0' <= last <= '9'
    ensures AllDigits(front + [last])
  {
  }

  lemma DigitRoundTrip(d: nat)
    requires d < 10
    ensures '0' <= DigitOf(d) <= '9' && DigitValue(DigitOf(d)) == Some(d)
  {
  }

  /** Printing then parsing an integer gives it back, and the text is a bare line of digits. */
  lemma PrintRoundTrip(i: int)
    ensures ParseInteger(Print(i)) == Some(i)
    ensures Print(i) != "" && '\n' !in Print(i) && Tight(Print(i))
  {
    var digits := PrintNat(if i < 0 then -i else i);
    PrintNatRoundTrip(if i < 0 then -i else i);
    DigitsAreTight(digits);
    if i < 0 {
      MinusIsTight(digits);
      assert ("-" + digits)[1..] == digits;
    }
  }

  lemma DigitsAreTight(s: string)
    requires AllDigits(s)
    ensures Tight(s) && '\n' !in s && s[0] != '-' && s[0] != '+'
  {
    assert s[0] in s && s[|s| - 1] in s;
  }

  lemma MinusIsTight(s: string)
    requires AllDigits(s)
    ensures Tight("-" + s) && '\n' !in "-" + s
  {
    assert s[|s| - 1] in s && ("-" + s)[|s|] == s[|s| - 1];
  }

  /** A printed expiry reads back as the same number. */
  lemma NumberOfPrint(i: int, exotic: string -> Option<Number>)
    requires IsSafe(i)
    ensures NumberOf(Print(i), exotic) == Some(Safe(i))
  {
    PrintRoundTrip(i);
  }

  lemma TextHasNoBreak(x: Number)
    ensures '\n' !in TextOf(x)
  {
    if x.Safe? {
      PrintRoundTrip(x.i);
    }
  }

  /** The last line break separates key from expiry, whatever the key contains. */
  lemma MessageIsInjective(key: string, e: string, key': string, e': string)
    requires '\n' !in e && '\n' !in e'
    requires key + "\n" + e == key' + "\n" + e'
    ensures key == key' && e == e'
  {
    var m, m' := key + "\n" + e, key' + "\n" + e';
    assert forall i :: |key| < i < |m| ==> m[i] == e[i - |key| - 1];
    assert forall i :: |key'| < i < |m'| ==> m'[i] == e'[i - |key'| - 1];
    assert m[|key|] == '\n' && m'[|key'|] == '\n';
    assert |key| == |key'|;
    assert key == m[..|key|] && key' == m'[..|key'|];
    assert e == m[|key| + 1..] && e' == m'[|key'| + 1..];
  }

  /** Both parameters of the request are there and not empty. */
  predicate Given(expires: Option<string>, signature: Option<string>) {
    expires.Some? && expires.value != "" && signature.Some? && signature.value != ""
  }

  /** The number's whole part lies before the second. */
  predicate Past(n: Number, second: int) {
    match n
    case Safe(i) => i < second
    case Other(_, floor) => floor < second
  }

  /**
   * Every answer of the verification, for any parameters: accepted exactly if both are given, the expiry
   * reads as a finite number not before this second, and the signature is the MAC of key, line break and that
   * number; missing, expired and invalid exactly if what fails first is that.
   */
  lemma VerifiesExactly(
    key: string, expires: Option<string>, signature: Option<string>, now: int,
    mac: string -> string, exotic: string -> Option<Number>)
    ensures var answer := VerifySignedLink(key, expires, signature, now, mac, exotic);
            var given := Given(expires, signature);
            && (answer == Rejected(Missing) <==> !given)
            && (answer == Accepted <==> given && exists n ::
                  NumberOf(expires.value, exotic) == Some(n) && !Past(n, now / 1000)
                  && signature.value == mac(key + "\n" + TextOf(n)))
            && (answer == Rejected(Expired) <==> given && exists n ::
                  NumberOf(expires.value, exotic) == Some(n) && Past(n, now / 1000))
            && (answer == Rejected(Invalid) <==> given && (NumberOf(expires.value, exotic).None? || exists n ::
                  NumberOf(expires.value, exotic) == Some(n) && !Past(n, now / 1000)
                  && signature.value != mac(key + "\n" + TextOf(n))))
  {
    if Given(expires, signature) && NumberOf(expires.value, exotic).Some? {
      var n := NumberOf(expires.value, exotic).value;
      assert Past(n, now / 1000) <==> Before(n, now / 1000);
    }
  }

  /** Which texts read as which number: white space around does not matter and nothing else is zero. */
  lemma NumberOfReads(s: string, i: int, exotic: string -> Option<Number>)
    requires IsSafe(i)
    ensures IsTrimmed(s, Print(i)) ==> NumberOf(s, exotic) == Some(Safe(i))
    ensures AllSpace(s) ==> NumberOf(s, exotic) == Some(Safe(0))
    ensures ParseInteger(Trim(s)).None? && !AllSpace(s) ==> NumberOf(s, exotic) == exotic(Trim(s))
  {
    TrimmedIs(s);
    if IsTrimmed(s, Print(i)) {
      PrintRoundTrip(i);
      TrimmedOnce(s, Print(i));
    }
  }

  lemma PlusIsRead(n: nat)
    ensures ParseInteger("+" + Print(n)) == Some(n)
  {
    PrintNatRoundTrip(n);
    assert ("+" + Print(n))[1..] == PrintNat(n);
  }

  ghost predicate Injective(mac: string -> string) {
    forall a, b :: mac(a) == mac(b) ==> a == b
  }

  /** A minted link verifies exactly until its expiry second has passed. */
  lemma MintedLinkVerifiesUntilExpiry(
    key: string, ttlSeconds: int, now: int, later: int, mac: string -> string, exotic: string -> Option<Number>)
    requires IsSafe(now / 1000 + ttlSeconds)
    requires mac(MessageOf(key, Safe(now / 1000 + ttlSeconds))) != ""
    ensures var link := CreateSignedLink(key, ttlSeconds, now, mac);
            VerifySignedLink(key, Some(Print(link.expires)), Some(link.signature), later, mac, exotic)
            == if later / 1000 <= now / 1000 + ttlSeconds then Accepted else Rejected(Expired)
  {
    var link := CreateSignedLink(key, ttlSeconds, now, mac);
    NumberOfPrint(link.expires, exotic);
    PrintRoundTrip(link.expires);
  }

  /**
   * A signature made for one key and expiry is accepted exactly for that key, with any text that reads as
   * that expiry, until the expiry has passed.
   */
  lemma SignatureBinds(
    key: string, expires: int, key': string, expires': string, later: int,
    mac: string -> string, exotic: string -> Option<Number>)
    requires Injective(mac) && IsSafe(expires) && mac(MessageOf(key, Safe(expires))) != ""
    ensures VerifySignedLink(key', Some(expires'), Some(mac(MessageOf(key, Safe(expires)))), later, mac, exotic) == Accepted
      <==> key' == key && expires' != "" && NumberOf(expires', exotic) == Some(Safe(expires)) && later / 1000 <= expires
  {
    if VerifySignedLink(key', Some(expires'), Some(mac(MessageOf(key, Safe(expires)))), later, mac, exotic) == Accepted {
      var n := NumberOf(expires', exotic).value;
      TextHasNoBreak(Safe(expires));
      TextHasNoBreak(n);
      MessageIsInjective(key, TextOf(Safe(expires)), key', TextOf(n));
      assert n.Safe?;
      PrintRoundTrip(expires);
      PrintRoundTrip(n.i);
    }
  }
}
