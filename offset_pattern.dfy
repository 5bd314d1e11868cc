/** The text pattern `offset = (\d+)` that both offset scripts apply to the
    whole content of node-config.toml: the leftmost-match search (`re.search`),
    the replace-every-match rewrite (`re.sub`), the decimal reading of the
    digits (`int`) and the decimal writing of a number (`str`). Digits are the
    ASCII digits '0'..'9'. */
module OffsetPattern {
  import opened Wrappers

  /** The literal text in front of the digits. */
  const Prefix: string := "offset = "

  predicate IsDigit(c: char) {
    '0' <= c <= '9'
  }

  predicate AllDigits(s: string) {
    forall i :: 0 <= i < |s| ==> IsDigit(s[i])
  }

  /** Python's `str.isdigit`: at least one character, and every one a digit. */
  predicate IsDigitString(s: string) {
    |s| > 0 && AllDigits(s)
  }

  function DigitValue(c: char): nat
    requires IsDigit(c)
  {
    c as int - '0' as int
  }

  function DigitChar(d: nat): char
    requires d < 10
  {
    ('0' as int + d) as char
  }

  /** Python's `int(s)` on a string of decimal digits; leading zeros are
      allowed, and the value is 0 exactly when every digit is '0' (so `000`
      reads as 0). */
  function DigitsValue(s: string): (r: nat)
    requires AllDigits(s)
    ensures r == 0 <==> forall i :: 0 <= i < |s| ==> s[i] == '0'
    decreases |s|
  {
    if |s| == 0 then 0
    else
      var front := s[..|s| - 1];
      assert forall i :: 0 <= i < |front| ==> front[i] == s[i];
      assert (forall i :: 0 <= i < |s| ==> s[i] == '0')
        <==> (forall i :: 0 <= i < |front| ==> front[i] == '0') && s[|s| - 1] == '0';
      DigitsValue(front) * 10 + DigitValue(s[|s| - 1])
  }

  /** Python's `str(n)` (and `f'{n}'`) on a non-negative integer. */
  function DecimalString(n: nat): (r: string)
    ensures IsDigitString(r)
    ensures DigitsValue(r) == n
    ensures r[0] == '0' ==> r == "0"
    decreases n
  {
    if n < 10 then [DigitChar(n)]
    else
      var front := DecimalString(n / 10);
      var r := front + [DigitChar(n % 10)];
      assert r[..|r| - 1] == front;
      r
  }

  /** The number of characters `\d+` consumes at the start of `s`: greedy, so
      the run is all digits and is not followed by one. */
  function DigitRun(s: string): (k: nat)
    ensures k <= |s|
    ensures AllDigits(s[..k])
    ensures k == |s| || !IsDigit(s[k])
  {
    if |s| == 0 || !IsDigit(s[0]) then 0
    else
      var k := 1 + DigitRun(s[1..]);
      assert forall i :: 1 <= i < k ==> s[..k][i] == s[1..][..k - 1][i - 1];
      k
  }

  /** The pattern matches at position `i`: the prefix and then at least one digit. */
  predicate MatchAt(s: string, i: nat) {
    i + |Prefix| < |s| && s[i..i + |Prefix|] == Prefix && IsDigit(s[i + |Prefix|])
  }

  /** `d` is the group `(\d+)` of a match at `p`: it follows the prefix, is all
      digits, and the character after it (if any) is not a digit. */
  predicate IsMatch(s: string, p: nat, d: string) {
    && p + |Prefix| + |d| <= |s|
    && s[p..p + |Prefix|] == Prefix
    && IsDigitString(d)
    && s[p + |Prefix|..p + |Prefix| + |d|] == d
    && (p + |Prefix| + |d| == |s| || !IsDigit(s[p + |Prefix| + |d|]))
  }

  /** The group of a match is the greedy digit run after the prefix, so a
      position holds at most one match. */
  lemma IsMatchDigits(s: string, p: nat, d: string)
    requires IsMatch(s, p, d)
    ensures MatchAt(s, p)
    ensures d == s[p + |Prefix|..p + |Prefix| + DigitRun(s[p + |Prefix|..])]
  {
    var base := p + |Prefix|;
    assert s[base] == d[0];
    assert s[base..] == d + s[base + |d|..];
    DigitRunOfDigits(d, s[base + |d|..]);
  }

  lemma MatchAtShift(s: string, k: nat, j: nat)
    requires k <= |s|
    ensures MatchAt(s[k..], j) <==> MatchAt(s, k + j)
  {
    if j + |Prefix| < |s| - k {
      assert s[k..][j..j + |Prefix|] == s[k + j..k + j + |Prefix|];
    }
  }

  lemma IsMatchShift(s: string, k: nat, p: nat, d: string)
    requires k <= |s|
    ensures IsMatch(s[k..], p, d) <==> IsMatch(s, k + p, d)
  {
    if p + |Prefix| + |d| <= |s| - k {
      assert s[k..][p..p + |Prefix|] == s[k + p..k + p + |Prefix|];
      assert s[k..][p + |Prefix|..p + |Prefix| + |d|] == s[k + p + |Prefix|..k + p + |Prefix| + |d|];
    }
  }

  datatype Match = Match(start: nat, digits: string)

  /** The digits of a match at the start of `s`. */
  function LeadingDigits(s: string): string
    requires MatchAt(s, 0)
  {
    s[|Prefix|..|Prefix| + DigitRun(s[|Prefix|..])]
  }

  /** No match in the tail before `n - 1` is no match in `s` from 1 to `n`. */
  lemma NoMatchShift(s: string, n: nat)
    requires 0 < |s| && n <= |s|
    requires forall j :: 0 <= j < n - 1 ==> !MatchAt(s[1..], j)
    ensures forall j :: 1 <= j < n ==> !MatchAt(s, j)
  {
    forall j | 1 <= j < n ensures !MatchAt(s, j) { MatchAtShift(s, 1, j - 1); }
  }

  /** A leftmost match in the tail is a match of `s`, one position later. */
  lemma SearchShift(s: string, p: nat, d: string)
    requires 0 < |s|
    requires MatchAt(s[1..], p) && IsMatch(s[1..], p, d)
    requires forall j :: 0 <= j < p ==> !MatchAt(s[1..], j)
    ensures MatchAt(s, p + 1) && IsMatch(s, p + 1, d)
    ensures forall j :: 1 <= j < p + 1 ==> !MatchAt(s, j)
  {
    IsMatchShift(s, 1, p, d);
    MatchAtShift(s, 1, p);
    NoMatchShift(s, p + 1);
  }

  /** `re.search(r'offset = (\d+)', s)`: the leftmost match and its group. */
  function Search(s: string): (m: Option<Match>)
    ensures m.Some? ==> MatchAt(s, m.value.start) && IsMatch(s, m.value.start, m.value.digits)
    ensures m.Some? ==> forall j :: 0 <= j < m.value.start ==> !MatchAt(s, j)
    ensures m.None? ==> forall j :: 0 <= j < |s| ==> !MatchAt(s, j)
    decreases |s|
  {
    if |s| == 0 then None
    else if MatchAt(s, 0) then
      var d := LeadingDigits(s);
      assert s[|Prefix|..][..DigitRun(s[|Prefix|..])] == d;
      Some(Match(0, d))
    else
      match Search(s[1..])
      case None =>
        NoMatchShift(s, |s|);
        None
      case Some(m) =>
        SearchShift(s, m.start, m.digits);
        Some(Match(m.start + 1, m.digits))
  }

  /** `int(m.group(1))` of the leftmost match, if there is one. */
  function SearchOffset(s: string): (r: Option<nat>)
    ensures r.Some? <==> exists j :: 0 <= j < |s| && MatchAt(s, j)
    ensures r.Some? ==> exists p: nat, d: string ::
      IsMatch(s, p, d) && (forall j :: 0 <= j < p ==> !MatchAt(s, j)) && r.value == DigitsValue(d)
  {
    match Search(s)
    case None => None
    case Some(m) =>
      assert MatchAt(s, m.start) && m.start < |s|;
      Some(DigitsValue(m.digits))
  }

  /** The content as `re.sub` sees it: a sequence of literal characters and
      matches, each match standing for the prefix followed by its digits. */
  datatype Piece = Literal(c: char) | Field(digits: string)

  /** The scan `re.sub` performs, left to right: a match at the current
      position is taken whole (its digits greedily), otherwise one character
      is passed over unchanged. */
  function Pieces(s: string): seq<Piece>
    decreases |s|
  {
    if |s| == 0 then []
    else if MatchAt(s, 0) then
      [Field(LeadingDigits(s))] + Pieces(s[|Prefix| + DigitRun(s[|Prefix|..])..])
    else [Literal(s[0])] + Pieces(s[1..])
  }

  function PieceText(p: Piece): string {
    match p
    case Literal(c) => [c]
    case Field(d) => Prefix + d
  }

  function Render(ps: seq<Piece>): string {
    if |ps| == 0 then [] else PieceText(ps[0]) + Render(ps[1..])
  }

  /** Every match rewritten to carry the digits `r`; literals kept. */
  function Fill(ps: seq<Piece>, r: string): seq<Piece> {
    if |ps| == 0 then []
    else [if ps[0].Field? then Field(r) else ps[0]] + Fill(ps[1..], r)
  }

  /** The digits of the first match among `ps`. */
  function FirstField(ps: seq<Piece>): Option<string> {
    if |ps| == 0 then None
    else if ps[0].Field? then Some(ps[0].digits)
    else FirstField(ps[1..])
  }

  /** `re.sub(r'offset = \d+', 'offset = ' + r, s)`: left to right, a
      match at the current position is replaced whole, otherwise one
      character is copied. */
  function Sub(s: string, r: string): (t: string)
    ensures (forall j :: 0 <= j < |s| ==> !MatchAt(s, j)) ==> t == s
    decreases |s|
  {
    if |s| == 0 then []
    else if MatchAt(s, 0) then Prefix + r + Sub(s[|Prefix| + DigitRun(s[|Prefix|..])..], r)
    else
      NoMatchInTail(s);
      assert s == [s[0]] + s[1..];
      [s[0]] + Sub(s[1..], r)
  }

  /** No match in `s` is no match in its tail. */
  lemma NoMatchInTail(s: string)
    requires 0 < |s|
    ensures (forall j :: 0 <= j < |s| ==> !MatchAt(s, j)) ==> forall j :: 0 <= j < |s| - 1 ==> !MatchAt(s[1..], j)
  {
    forall j | 0 <= j < |s| - 1 ensures MatchAt(s[1..], j) ==> MatchAt(s, j + 1) {
      MatchAtShift(s, 1, j);
    }
  }

  lemma RenderCons(p: Piece, ps: seq<Piece>)
    ensures Render([p] + ps) == PieceText(p) + Render(ps)
  {
    assert ([p] + ps)[1..] == ps;
  }

  lemma FillCons(p: Piece, ps: seq<Piece>, r: string)
    ensures Fill([p] + ps, r) == [if p.Field? then Field(r) else p] + Fill(ps, r)
  {
    assert ([p] + ps)[1..] == ps;
  }

  /** The rewrite is the scan's pieces spelled out with every match's digits
      replaced by `r`. */
  lemma {:induction false} SubIsFilledPieces(s: string, r: string)
    ensures Sub(s, r) == Render(Fill(Pieces(s), r))
    decreases |s|
  {
    if |s| > 0 {
      if MatchAt(s, 0) {
        var rest := s[|Prefix| + DigitRun(s[|Prefix|..])..];
        SubIsFilledPieces(rest, r);
        FillCons(Field(LeadingDigits(s)), Pieces(rest), r);
        RenderCons(Field(r), Fill(Pieces(rest), r));
      } else {
        SubIsFilledPieces(s[1..], r);
        FillCons(Literal(s[0]), Pieces(s[1..]), r);
        RenderCons(Literal(s[0]), Fill(Pieces(s[1..]), r));
      }
    }
  }

  lemma SplitThree(s: string, i: nat, j: nat)
    requires i <= j <= |s|
    ensures s == s[0..i] + s[i..j] + s[j..]
  {
  }

  /** The scan loses nothing: its pieces spell out the content again. */
  lemma {:induction false} RenderPieces(s: string)
    ensures Render(Pieces(s)) == s
    decreases |s|
  {
    if |s| > 0 {
      if MatchAt(s, 0) {
        var k := DigitRun(s[|Prefix|..]);
        var rest := s[|Prefix| + k..];
        var d := LeadingDigits(s);
        assert Pieces(s) == [Field(d)] + Pieces(rest);
        RenderCons(Field(d), Pieces(rest));
        RenderPieces(rest);
        assert s[0..|Prefix|] == Prefix;
        SplitThree(s, |Prefix|, |Prefix| + k);
      } else {
        assert Pieces(s) == [Literal(s[0])] + Pieces(s[1..]);
        RenderCons(Literal(s[0]), Pieces(s[1..]));
        RenderPieces(s[1..]);
        assert s == [s[0]] + s[1..];
      }
    }
  }

  /** The rewrite keeps the first `n` characters of a text when they cannot
      hold a replaced digit: at most the prefix length, or one more when no
      match begins at the front. */
  lemma {:induction false} SubAgrees(s: string, r: string, n: nat)
    requires n <= |s| && n <= |Prefix| + 1
    requires n == |Prefix| + 1 ==> !MatchAt(s, 0)
    ensures n <= |Sub(s, r)| && Sub(s, r)[..n] == s[..n]
    decreases |s|
  {
    if n > 0 {
      if MatchAt(s, 0) {
        SubAgreesAtMatch(s, r, n);
      } else {
        SubAgrees(s[1..], r, n - 1);
        SubAtLiteral(s, r, n);
      }
    }
  }

  /** One copied character in front of a tail that agrees on `n - 1`
      characters agrees on `n`. */
  lemma SubAtLiteral(s: string, r: string, n: nat)
    requires 0 < n <= |s| && !MatchAt(s, 0)
    requires n - 1 <= |Sub(s[1..], r)| && Sub(s[1..], r)[..n - 1] == s[1..][..n - 1]
    ensures n <= |Sub(s, r)| && Sub(s, r)[..n] == s[..n]
  {
    SubLiteral(s, r);
    ConsAgrees(s[0], Sub(s[1..], r), s[1..], n);
    assert s == [s[0]] + s[1..];
  }

  /** Without a match at the front, the rewrite copies the first character. */
  lemma SubLiteral(s: string, r: string)
    requires |s| > 0 && !MatchAt(s, 0)
    ensures Sub(s, r) == [s[0]] + Sub(s[1..], r)
  {
  }

  /** Two texts that agree on `n - 1` characters still agree on `n` after the
      same character is put in front of both. */
  lemma ConsAgrees(c: char, t: string, u: string, n: nat)
    requires 0 < n && n - 1 <= |t| && n - 1 <= |u| && t[..n - 1] == u[..n - 1]
    ensures ([c] + t)[..n] == ([c] + u)[..n]
  {
    assert ([c] + t)[..n] == [c] + t[..n - 1];
    assert ([c] + u)[..n] == [c] + u[..n - 1];
  }

  lemma SubAgreesAtMatch(s: string, r: string, n: nat)
    requires MatchAt(s, 0)
    requires n <= |Prefix|
    ensures n <= |Sub(s, r)| && Sub(s, r)[..n] == s[..n]
  {
    var t := Sub(s, r);
    assert t[..|Prefix|] == Prefix;
    assert s[0..|Prefix|] == Prefix;
    assert t[..n] == t[..|Prefix|][..n];
    assert s[..n] == s[0..|Prefix|][..n];
  }

  /** The rewrite keeps the first character. */
  lemma SubFirst(s: string, r: string)
    requires |s| > 0
    ensures |Sub(s, r)| > 0 && Sub(s, r)[0] == s[0]
  {
    SubAgrees(s, r, 1);
    assert Sub(s, r)[..1][0] == s[..1][0];
  }

  /** Rewriting creates no match at the front where there was none. */
  lemma NoMatchStaysNoMatch(s: string, r: string)
    requires !MatchAt(s, 0)
    ensures !MatchAt(Sub(s, r), 0)
  {
    if |s| <= |Prefix| {
      assert forall j :: 0 <= j < |s| ==> !MatchAt(s, j);
    } else {
      var n := |Prefix| + 1;
      SubAgrees(s, r, n);
      var t := Sub(s, r);
      assert t[..|Prefix|] == t[..n][..|Prefix|] == s[..n][..|Prefix|] == s[..|Prefix|];
      assert t[|Prefix|] == t[..n][|Prefix|] == s[..n][|Prefix|] == s[|Prefix|];
    }
  }

  /** Digits followed by a non-digit: `\d+` takes exactly the digits. */
  lemma {:induction false} DigitRunOfDigits(d: string, u: string)
    requires AllDigits(d)
    requires |u| == 0 || !IsDigit(u[0])
    ensures DigitRun(d + u) == |d|
    decreases |d|
  {
    if |d| == 0 {
      assert d + u == u;
    } else {
      var t := d + u;
      assert t[0] == d[0];
      assert t[1..] == d[1..] + u;
      assert AllDigits(d[1..]) by {
        forall i | 0 <= i < |d| - 1 ensures IsDigit(d[1..][i]) { assert d[1..][i] == d[i + 1]; }
      }
      DigitRunOfDigits(d[1..], u);
    }
  }

  /** Re-scanning the rewritten text finds the same matches, each now holding
      `r`, between the same literal characters: every occurrence was
      rewritten and no new one appeared. */
  lemma {:induction false} PiecesOfSub(s: string, r: string)
    requires IsDigitString(r)
    ensures Pieces(Sub(s, r)) == Fill(Pieces(s), r)
    decreases |s|
  {
    if |s| > 0 {
      if MatchAt(s, 0) {
        var rest := s[|Prefix| + DigitRun(s[|Prefix|..])..];
        PiecesOfSubAtMatch(s, r);
        PiecesOfSub(rest, r);
        FillCons(Field(LeadingDigits(s)), Pieces(rest), r);
      } else {
        PiecesOfSubAtLiteral(s, r);
        PiecesOfSub(s[1..], r);
        FillCons(Literal(s[0]), Pieces(s[1..]), r);
      }
    }
  }

  lemma PrefixedMatches(d: string, u: string)
    requires IsDigitString(d)
    ensures MatchAt(Prefix + d + u, 0)
  {
    var t := Prefix + d + u;
    assert t[0..|Prefix|] == Prefix;
    assert t[|Prefix|] == d[0];
  }

  lemma PrefixedRun(d: string, u: string)
    requires AllDigits(d)
    requires |u| == 0 || !IsDigit(u[0])
    ensures DigitRun((Prefix + d + u)[|Prefix|..]) == |d|
    ensures (Prefix + d + u)[|Prefix| + |d|..] == u
  {
    var t := Prefix + d + u;
    assert t[|Prefix|..] == d + u;
    DigitRunOfDigits(d, u);
  }

  /** The prefix, digits, then a non-digit or the end: the scan takes one
      match holding exactly those digits. */
  lemma PiecesOfPrefixed(d: string, u: string)
    requires IsDigitString(d)
    requires |u| == 0 || !IsDigit(u[0])
    ensures Pieces(Prefix + d + u) == [Field(d)] + Pieces(u)
  {
    var t := Prefix + d + u;
    PrefixedMatches(d, u);
    PrefixedRun(d, u);
    assert LeadingDigits(t) == d;
  }

  /** A match at the front is rewritten into a match of `r` at the front,
      followed by the rewrite of the rest. */
  lemma PiecesOfSubAtMatch(s: string, r: string)
    requires IsDigitString(r)
    requires MatchAt(s, 0)
    ensures Pieces(Sub(s, r)) == [Field(r)] + Pieces(Sub(s[|Prefix| + DigitRun(s[|Prefix|..])..], r))
  {
    var k := DigitRun(s[|Prefix|..]);
    var rest := s[|Prefix| + k..];
    var u := Sub(rest, r);
    assert Sub(s, r) == Prefix + r + u;
    if |rest| > 0 {
      SubFirst(rest, r);
      assert rest[0] == s[|Prefix|..][k];
    }
    PiecesOfPrefixed(r, u);
  }

  /** A literal at the front stays a literal at the front. */
  lemma PiecesOfSubAtLiteral(s: string, r: string)
    requires IsDigitString(r)
    requires |s| > 0 && !MatchAt(s, 0)
    ensures Pieces(Sub(s, r)) == [Literal(s[0])] + Pieces(Sub(s[1..], r))
  {
    var t := Sub(s, r);
    NoMatchStaysNoMatch(s, r);
    assert t == [s[0]] + Sub(s[1..], r);
    assert t[1..] == Sub(s[1..], r);
  }

  /** The search finds a match exactly when the scan does, and its group is
      the scan's first match. */
  lemma {:induction false} SearchIsFirstField(s: string)
    ensures Search(s).None? <==> FirstField(Pieces(s)).None?
    ensures Search(s).Some? ==> FirstField(Pieces(s)) == Some(Search(s).value.digits)
    decreases |s|
  {
    if |s| > 0 {
      var ps := Pieces(s);
      if !MatchAt(s, 0) {
        assert ps[1..] == Pieces(s[1..]);
        SearchIsFirstField(s[1..]);
      }
    }
  }

  lemma {:induction false} FirstFieldOfFill(ps: seq<Piece>, r: string)
    ensures FirstField(Fill(ps, r)) == if FirstField(ps).Some? then Some(r) else None
    decreases |ps|
  {
    if |ps| > 0 {
      var qs := Fill(ps, r);
      assert qs[1..] == Fill(ps[1..], r);
      FirstFieldOfFill(ps[1..], r);
    }
  }

  /** After rewriting with the digits `r`, the leftmost match holds `r`; and a
      text without a match still has none. */
  lemma SearchAfterSub(s: string, r: string)
    requires IsDigitString(r)
    ensures Search(s).Some? ==> Search(Sub(s, r)).Some? && Search(Sub(s, r)).value.digits == r
    ensures Search(s).None? ==> Sub(s, r) == s
  {
    if Search(s).Some? {
      PiecesOfSub(s, r);
      SearchIsFirstField(s);
      SearchIsFirstField(Sub(s, r));
      FirstFieldOfFill(Pieces(s), r);
    }
  }
}
