/** The shape check of `validateDate`: the anchored pattern `^\d{4}-\d{2}-\d{2}$`
    (the `full-date` shape of section 5.6 of RFC 3339), followed by the engine's
    `Date` parser, which stays abstract. */
module DateFormat {

  /** One position of an anchored pattern without quantifiers. */
  datatype CharClass = Digit | Exactly(c: char)

  /** `\d` is the ASCII digits `[0-9]`. */
  predicate IsDigit(c: char)
  {
    '0' <= c <= '9'
  }

  predicate InClass(k: CharClass, c: char)
  {
    match k
    case Digit => IsDigit(c)
    case Exactly(d) => c == d
  }

  /** `^\d{4}-\d{2}-\d{2}$` with the repetitions spelled out. */
  const FullDatePattern: seq<CharClass> :=
    [Digit, Digit, Digit, Digit, Exactly('-'), Digit, Digit, Exactly('-'), Digit, Digit]

  /** Anchored match (`^…$`): every position of `s` in its class, and no
      character left over at either end. */
  predicate Matches(p: seq<CharClass>, s: string)
    decreases |p|
  {
    if p == [] then s == []
    else s != [] && InClass(p[0], s[0]) && Matches(p[1..], s[1..])
  }

  lemma {:induction false} MatchesPointwise(p: seq<CharClass>, s: string)
    ensures Matches(p, s) <==> |s| == |p| && forall i :: 0 <= i < |s| ==> InClass(p[i], s[i])
    decreases |p|
  {
    if p != [] && s != [] {
      MatchesPointwise(p[1..], s[1..]);
      if |s| == |p| && forall i :: 0 <= i < |s| ==> InClass(p[i], s[i]) {
        assert forall i :: 0 <= i < |s[1..]| ==> InClass(p[1..][i], s[1..][i]) by {
          forall i | 0 <= i < |s[1..]| ensures InClass(p[1..][i], s[1..][i]) {
            assert InClass(p[i + 1], s[i + 1]);
          }
        }
      }
      if Matches(p, s) {
        forall i | 0 <= i < |s| ensures InClass(p[i], s[i]) {
          if i > 0 { assert InClass(p[1..][i - 1], s[1..][i - 1]); }
        }
      }
    }
  }

  /** The shape `DDDD-DD-DD` written out position by position. */
  predicate FullDateShape(s: string)
  {
    |s| == 10 && s[4] == '-' && s[7] == '-' &&
    IsDigit(s[0]) && IsDigit(s[1]) && IsDigit(s[2]) && IsDigit(s[3]) &&
    IsDigit(s[5]) && IsDigit(s[6]) && IsDigit(s[8]) && IsDigit(s[9])
  }

  /** The anchored pattern accepts exactly the strings of the shape `DDDD-DD-DD`. */
  lemma FullDatePatternShape(s: string)
    ensures Matches(FullDatePattern, s) <==> FullDateShape(s)
  {
    MatchesPointwise(FullDatePattern, s);
    if FullDateShape(s) {
      forall i | 0 <= i < |s| ensures InClass(FullDatePattern[i], s[i]) {
        if i == 0 {} else if i == 1 {} else if i == 2 {} else if i == 3 {} else if i == 4 {}
        else if i == 5 {} else if i == 6 {} else if i == 7 {} else if i == 8 {} else {}
      }
    }
  }

  /** `validateDate(s)`: the pattern test first, then `new Date(s)` must not be
      an invalid date. */
  function ValidateDate(s: string, dateOk: string -> bool): (ok: bool)
    ensures ok <==> FullDateShape(s) && dateOk(s)
  {
    FullDatePatternShape(s);
    if Matches(FullDatePattern, s) then dateOk(s) else false
  }
}
