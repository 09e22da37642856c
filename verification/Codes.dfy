/** Access codes: how one is drawn, and how what a customer types is brought back to it. */
module Codes {
  import opened Tables
  import opened Operations
  import opened Invariants
  import opened Lifecycle
  import opened Journey

  const LETTERS: string := "ABCDEFGHIJKLMNOPQRSTUVWXYZ0123456789"

  /** Six capital letters and digits. */
  predicate IsCode(code: string) {
    |code| == 6 && forall i :: 0 <= i < 6 ==> 'A' <= code[i] <= 'Z' || '0' <= code[i] <= '9'
  }

  /** Six draws from the alphabet. */
  method GenAccessCode(draws: seq<nat>) returns (code: string)
    requires |draws| == 6 && forall i :: 0 <= i < 6 ==> draws[i] < 36
    ensures IsCode(code) && forall i :: 0 <= i < 6 ==> code[i] == LETTERS[draws[i]]
  {
    var buffer := new char[6];
    for i := 0 to 6
      invariant forall j :: 0 <= j < i ==> buffer[j] == LETTERS[draws[j]]
      invariant forall j :: 0 <= j < i ==> 'A' <= buffer[j] <= 'Z' || '0' <= buffer[j] <= '9'
    {
      buffer[i] := LETTERS[draws[i]];
    }
    return buffer[..];
  }

  // ---------------------------------------------------------------- what the customer types

  predicate IsSpace(c: char) {
    c == ' ' || '\t' <= c <= '\r' || c == '\U{85}' || c == '\U{A0}' || c == '\U{1680}' || '\U{2000}' <= c <= '\U{200A}'
    || c == '\U{2028}' || c == '\U{2029}' || c == '\U{202F}' || c == '\U{205F}' || c == '\U{3000}'
  }

  function Trim(s: string): string
    decreases |s|
  {
    if s == "" then ""
    else if IsSpace(s[0]) then Trim(s[1..])
    else if IsSpace(s[|s| - 1]) then Trim(s[..|s| - 1])
    else s
  }

  predicate Ascii(c: char) {
    c < '\U{80}'
  }

  function AsciiUpper(c: char): char {
    if 'a' <= c <= 'z' then c - ('a' - 'A') else c
  }

  /** An upper-casing of characters: the usual one on ASCII, white space stays, and what it does to other
      letters is left open. */
  ghost predicate IsUpper(upper: char -> char) {
    forall c :: (Ascii(c) ==> upper(c) == AsciiUpper(c)) && (IsSpace(c) ==> upper(c) == c)
  }

  function MapUpper(upper: char -> char, s: string): (r: string)
    ensures |r| == |s| && forall i :: 0 <= i < |s| ==> r[i] == upper(s[i])
  {
    seq(|s|, i requires 0 <= i < |s| => upper(s[i]))
  }

  /** Length in bytes of a character's encoding. */
  function Bytes(c: char): nat {
    if c < '\U{80}' then 1 else if c < '\U{800}' then 2 else if c < '\U{10000}' then 3 else 4
  }

  function ByteLength(s: string): nat {
    if s == "" then 0 else Bytes(s[0]) + ByteLength(s[1..])
  }

  /** Trim, upper-case, and require six bytes. */
  function NormalizeCode(upper: char -> char, typed: string): Option<string> {
    var code := MapUpper(upper, Trim(typed));
    if ByteLength(code) != 6 then None else Some(code)
  }

  predicate AllSpace(s: string) {
    forall i :: 0 <= i < |s| ==> IsSpace(s[i])
  }

  /** `typed` is `code` in any mixture of cases, with white space around it. */
  ghost predicate Variant(typed: string, code: string) {
    exists a: string, b: string, c: string :: typed == a + b + c && AllSpace(a) && AllSpace(c) && SameButCase(b, code)
  }

  predicate SameButCase(b: string, code: string) {
    |b| == |code| && forall i :: 0 <= i < |b| ==> Ascii(b[i]) && AsciiUpper(b[i]) == code[i]
  }

  /** `typed` is anything that upper-cases to `code`, with white space around it. */
  ghost predicate Spells(upper: char -> char, typed: string, code: string) {
    exists a: string, b: string, c: string ::
      typed == a + b + c && AllSpace(a) && AllSpace(c) && MapUpper(upper, b) == code
  }

  lemma {:induction false} TrimInside(a: string, b: string, c: string)
    requires AllSpace(a) && AllSpace(c) && b != "" && !IsSpace(b[0]) && !IsSpace(b[|b| - 1])
    ensures Trim(a + b + c) == b
    decreases |a| + |c|
  {
    var s := a + b + c;
    if a != "" {
      assert s[1..] == a[1..] + b + c;
      TrimInside(a[1..], b, c);
    } else if c != "" {
      assert s[0] == b[0];
      assert s[|s| - 1] == c[|c| - 1];
      assert s[..|s| - 1] == a + b + c[..|c| - 1];
      TrimInside(a, b, c[..|c| - 1]);
    } else {
      assert s == b;
    }
  }

  /** One more white space on the left, or on the right. */
  lemma {:induction false} Wider(x: string, a: string, t: string, c: string)
    requires AllSpace(x) && AllSpace(a) && AllSpace(c)
    ensures x + (a + t + c) == (x + a) + t + c && AllSpace(x + a)
    ensures (a + t + c) + x == a + t + (c + x) && AllSpace(c + x)
  {
  }

  /** Trimming takes white space off both ends and nothing else. */
  lemma {:induction false} TrimSplits(s: string) returns (a: string, c: string)
    ensures s == a + Trim(s) + c && AllSpace(a) && AllSpace(c)
    decreases |s|
  {
    a, c := "", "";
    if s == "" {
    } else if IsSpace(s[0]) {
      a, c := TrimSplits(s[1..]);
      assert s == s[..1] + s[1..];
      Wider(s[..1], a, Trim(s), c);
      a := s[..1] + a;
    } else if IsSpace(s[|s| - 1]) {
      var n := |s| - 1;
      a, c := TrimSplits(s[..n]);
      assert s == s[..n] + s[n..];
      Wider(s[n..], a, Trim(s), c);
      c := c + s[n..];
    }
  }

  lemma {:induction false} AsciiLength(s: string)
    requires forall i :: 0 <= i < |s| ==> Ascii(s[i])
    ensures ByteLength(s) == |s|
    decreases |s|
  {
    if s == "" {
    } else {
      AsciiLength(s[1..]);
    }
  }

  /** Whatever is typed, in any alphabet, is brought to a code exactly when it spells it. */
  lemma {:induction false} NormalizesExactly(upper: char -> char, typed: string, code: string)
    requires IsUpper(upper) && IsCode(code)
    ensures NormalizeCode(upper, typed) == Some(code) <==> Spells(upper, typed, code)
  {
    if Spells(upper, typed, code) {
      var a: string, b: string, c: string :|
        typed == a + b + c && AllSpace(a) && AllSpace(c) && MapUpper(upper, b) == code;
      NoSpaces(upper, b, code);
      TrimInside(a, b, c);
      AsciiLength(code);
    }
    if NormalizeCode(upper, typed) == Some(code) {
      var a, c := TrimSplits(typed);
      assert typed == a + Trim(typed) + c && MapUpper(upper, Trim(typed)) == code;
    }
  }

  /** What upper-cases to a code holds no white space. */
  lemma {:induction false} NoSpaces(upper: char -> char, b: string, code: string)
    requires IsUpper(upper) && IsCode(code) && MapUpper(upper, b) == code
    ensures |b| == 6 && forall i :: 0 <= i < 6 ==> !IsSpace(b[i])
  {
    forall i | 0 <= i < 6
      ensures !IsSpace(b[i])
    {
      assert code[i] == upper(b[i]) && !IsSpace(code[i]);
    }
  }

  /** Every case variant of a code spells it, with white space around it or not. */
  lemma {:induction false} VariantsNormalize(upper: char -> char, typed: string, code: string)
    requires IsUpper(upper) && IsCode(code) && Variant(typed, code)
    ensures NormalizeCode(upper, typed) == Some(code)
  {
    var a: string, b: string, c: string :| typed == a + b + c && AllSpace(a) && AllSpace(c) && SameButCase(b, code);
    assert MapUpper(upper, b) == code;
    assert Spells(upper, typed, code);
    NormalizesExactly(upper, typed, code);
  }

  /** And nothing else typed in ASCII does. */
  lemma {:induction false} OnlyVariantsNormalize(upper: char -> char, typed: string, code: string)
    requires IsUpper(upper) && IsCode(code)
    requires forall i :: 0 <= i < |typed| ==> Ascii(typed[i])
    ensures NormalizeCode(upper, typed) == Some(code) <==> Variant(typed, code)
  {
    if Variant(typed, code) {
      VariantsNormalize(upper, typed, code);
    }
    if NormalizeCode(upper, typed) == Some(code) {
      var a, c := TrimSplits(typed);
      var b := Trim(typed);
      assert forall i :: 0 <= i < |b| ==> b[i] == typed[|a| + i];
      assert MapUpper(upper, b) == code;
      forall i | 0 <= i < |b|
        ensures Ascii(b[i]) && AsciiUpper(b[i]) == code[i]
      {
        assert MapUpper(upper, b)[i] == upper(b[i]);
      }
      assert SameButCase(b, code);
    }
  }

  // ---------------------------------------------------------------- the code opens the rental

  /** The service's check: normalise, then ask the repository. */
  function TypedCheck(s: State, at: Time, location: int, upper: char -> char, typed: string): Reply {
    var code := NormalizeCode(upper, typed);
    if code.None? then InvalidAccess else Answer(s, Event(at, CheckAccessCode(location, code.value)))
  }

  /** From the booking until the finish, whatever else happens, every way of typing the issued code at its
      location is answered with that rental, its cell number and its phone, provided no other active rental
      there has the code. */
  lemma {:induction false} IssuedCodeAdmits(s: State, book: Event, es: seq<Event>, at: Time, upper: char -> char,
                                            typed: string)
    requires SessionsOk(s) && PaymentsOk(s) && book.op.CreateBooking? && Answer(s, book).Booked?
    requires Unfinished(es, book.op.ticket.rentalId) && CodesDistinct(Run(Apply(s, book), es))
    requires IsUpper(upper) && IsCode(book.op.ticket.code) && Spells(upper, typed, book.op.ticket.code)
    ensures var t, r := book.op.ticket, TypedCheck(Run(Apply(s, book), es), at, book.op.location, upper, typed);
            Admits(r) && r.rentalId == t.rentalId && r.location == book.op.location
            && r.cellNumber == Answer(s, book).cellNumber && r.phone == t.phone && r.code == t.code
  {
    NormalizesExactly(upper, typed, book.op.ticket.code);
    CheckTells(s, book, es, at);
  }
}
