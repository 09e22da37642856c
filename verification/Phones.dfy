/** Phone numbers: the server's normalisation and the kiosk's separately written check. */
module Phones {

  predicate IsDigit(c: char) {
    '0' <= c <= '9'
  }

  /** The digits of a string, in order. */
  function DigitsOf(s: string): string {
    if s == "" then "" else (if IsDigit(s[0]) then [s[0]] else "") + DigitsOf(s[1..])
  }

  /** The kiosk's check: eleven digits, the first a 7 or an 8. */
  predicate KioskAccepts(phone: string) {
    var digits := DigitsOf(phone);
    |digits| == 11 && (digits[0] == '7' || digits[0] == '8')
  }

  /** The canonical number of an accepted phone. */
  function Canonical(phone: string): string
    requires KioskAccepts(phone)
  {
    "+7" + DigitsOf(phone)[1..]
  }

  method NormalizePhone(phone: string) returns (number: string, ok: bool)
    ensures ok <==> KioskAccepts(phone)
    ensures number == if ok then Canonical(phone) else ""
  {
    var digits := "";
    for i := 0 to |phone|
      invariant digits == DigitsOf(phone[..i])
    {
      DigitsOfConcat(phone[..i], [phone[i]]);
      assert phone[..i + 1] == phone[..i] + [phone[i]];
      if phone[i] >= '0' && phone[i] <= '9' {
        digits := digits + [phone[i]];
      }
    }
    assert phone[..|phone|] == phone;
    if |digits| != 11 {
      return "", false;
    }
    if digits[0] == '8' {
      digits := digits[0 := '7'];
    }
    if digits[0] != '7' {
      return "", false;
    }
    assert digits == ['7'] + DigitsOf(phone)[1..];
    return "+" + digits, true;
  }

  lemma {:induction false} DigitsOfConcat(a: string, b: string)
    ensures DigitsOf(a + b) == DigitsOf(a) + DigitsOf(b)
    decreases |a|
  {
    if a == "" {
      assert a + b == b;
    } else {
      var s := a + b;
      var first := if IsDigit(a[0]) then [a[0]] else "";
      assert s[0] == a[0] && s[1..] == a[1..] + b;
      DigitsOfConcat(a[1..], b);
      assert DigitsOf(s) == first + DigitsOf(s[1..]) && DigitsOf(a) == first + DigitsOf(a[1..]);
    }
  }

  lemma {:induction false} DigitsStay(s: string)
    requires forall i :: 0 <= i < |s| ==> IsDigit(s[i])
    ensures DigitsOf(s) == s
    decreases |s|
  {
    if s == "" {
    } else {
      DigitsStay(s[1..]);
    }
  }

  lemma {:induction false} DigitsAreDigits(s: string)
    ensures forall i :: 0 <= i < |DigitsOf(s)| ==> IsDigit(DigitsOf(s)[i])
    decreases |s|
  {
    if s == "" {
    } else {
      DigitsAreDigits(s[1..]);
    }
  }

  /** A canonical number is `+7` and ten digits, and is its own canonical form. */
  lemma {:induction false} CanonicalIsStable(phone: string)
    requires KioskAccepts(phone)
    ensures |Canonical(phone)| == 12 && Canonical(phone)[..2] == "+7"
    ensures forall i :: 2 <= i < 12 ==> IsDigit(Canonical(phone)[i])
    ensures KioskAccepts(Canonical(phone)) && Canonical(Canonical(phone)) == Canonical(phone)
  {
    var rest := DigitsOf(phone)[1..];
    DigitsAreDigits(phone);
    DigitsStay(['7'] + rest);
    assert Canonical(phone) == "+" + (['7'] + rest);
    DigitsOfConcat("+", ['7'] + rest);
    assert DigitsOf("+") == "";
  }

  /** Characters that are not digits change nothing, wherever they stand. */
  lemma {:induction false} NoiseIsIgnored(a: string, noise: string, b: string)
    requires forall i :: 0 <= i < |noise| ==> !IsDigit(noise[i])
    ensures DigitsOf(a + noise + b) == DigitsOf(a + b)
    ensures KioskAccepts(a + noise + b) <==> KioskAccepts(a + b)
    ensures KioskAccepts(a + b) ==> Canonical(a + noise + b) == Canonical(a + b)
  {
    DigitsOfConcat(a + noise, b);
    DigitsOfConcat(a, noise);
    DigitsOfConcat(a, b);
    NoDigits(noise);
  }

  lemma {:induction false} NoDigits(noise: string)
    requires forall i :: 0 <= i < |noise| ==> !IsDigit(noise[i])
    ensures DigitsOf(noise) == ""
    decreases |noise|
  {
    if noise == "" {
    } else {
      NoDigits(noise[1..]);
    }
  }

  /** Two accepted phones are the same number exactly when their digits agree after the first; so a
      leading 8 and a leading 7 are one. */
  lemma {:induction false} SameNumber(a: string, b: string)
    requires KioskAccepts(a) && KioskAccepts(b)
    ensures Canonical(a) == Canonical(b) <==> DigitsOf(a)[1..] == DigitsOf(b)[1..]
  {
    assert Canonical(a)[2..] == DigitsOf(a)[1..] && Canonical(b)[2..] == DigitsOf(b)[1..];
  }

  lemma {:induction false} EightIsSeven(noise: string, rest: string)
    requires forall i :: 0 <= i < |noise| ==> !IsDigit(noise[i])
    ensures KioskAccepts(noise + "8" + rest) <==> KioskAccepts(noise + "7" + rest)
    ensures KioskAccepts(noise + "7" + rest) ==> Canonical(noise + "8" + rest) == Canonical(noise + "7" + rest)
  {
    NoDigits(noise);
    DigitsOfConcat(noise + "8", rest);
    DigitsOfConcat(noise, "8");
    DigitsOfConcat(noise + "7", rest);
    DigitsOfConcat(noise, "7");
    assert DigitsOf("8") == "8" && DigitsOf("7") == "7" by {
      DigitsStay("8");
      DigitsStay("7");
    }
    if KioskAccepts(noise + "7" + rest) {
      SameNumber(noise + "8" + rest, noise + "7" + rest);
    }
  }
}
