/**
 * `[RESPONSE k]` markers in a node's user text.
 *
 * Both rewrites of the editor use the global pattern `\[RESPONSE (\d+)\]`.
 * Because `\d+` is followed by `]`, a match is the fixed prefix, the whole run
 * of ASCII digits after it, and a closing bracket. A global replace is then a
 * left-to-right scan: at each position either a marker matches and is skipped
 * as a whole, or one character is copied. `Scan` cuts a text into those
 * pieces, `Render` glues them back, and the two rewrites are defined on the
 * pieces.
 */
module Placeholders {
  import opened Wrappers
  import opened Prompts

  const Prefix: string := "[RESPONSE "

  predicate IsDigit(c: char) { '0' <= c <= '9' }

  predicate AllDigits(d: string) { forall i :: 0 <= i < |d| ==> IsDigit(d[i]) }

  /** What `\d+` matches. */
  predicate Digits(d: string) { |d| > 0 && AllDigits(d) }

  /** The marker text with the given digits. */
  function MarkerText(d: string): string { Prefix + d + "]" }

  // ---------------------------------------------------------------- decimals

  function DigitValue(c: char): nat
    requires IsDigit(c)
  {
    c as int - '0' as int
  }

  function DigitChar(n: nat): char
    requires n < 10
  {
    ('0' as int + n) as char
  }

  /** `Number(d)` for a string of decimal digits. */
  function Value(d: string): nat
    requires AllDigits(d)
  {
    if d == [] then 0 else 10 * Value(d[..|d| - 1]) + DigitValue(d[|d| - 1])
  }

  /** `${n}`: the canonical decimal form, which reads back as `n` and has no leading zero. */
  function Show(n: nat): (d: string)
    ensures Digits(d) && Value(d) == n
    ensures d[0] == '0' ==> d == "0"
  {
    if n < 10 then [DigitChar(n)]
    else
      var front := Show(n / 10);
      var d := front + [DigitChar(n % 10)];
      assert d[..|d| - 1] == front;
      d
  }

  // ---------------------------------------------------------------- matching

  /** The length of the run of digits `s` starts with. */
  function DigitRun(s: string): (n: nat)
    ensures n <= |s| && AllDigits(s[..n])
    ensures n < |s| ==> !IsDigit(s[n])
  {
    if s != [] && IsDigit(s[0]) then
      var m := DigitRun(s[1..]);
      assert s[..1 + m] == [s[0]] + s[1..][..m];
      1 + m
    else 0
  }

  lemma {:induction false} DigitRunOf(d: string, t: string)
    requires AllDigits(d)
    requires t == [] || !IsDigit(t[0])
    ensures DigitRun(d + t) == |d|
  {
    if d != [] {
      assert (d + t)[1..] == d[1..] + t;
      DigitRunOf(d[1..], t);
    } else {
      assert d + t == t;
    }
  }

  /** The digits of the marker `s` starts with, if it starts with one. */
  function MarkerAt(s: string): (r: Option<string>)
    ensures r.Some? ==> Digits(r.value) && MarkerText(r.value) <= s
  {
    if |Prefix| <= |s| && s[..|Prefix|] == Prefix then
      var rest := s[|Prefix|..];
      var n := DigitRun(rest);
      if 0 < n < |rest| && rest[n] == ']' then
        assert MarkerText(rest[..n]) == s[..|Prefix| + n + 1];
        Some(rest[..n])
      else None
    else None
  }

  /** A marker matches at the start of `s` exactly when `s` begins with its text. */
  lemma MarkerAtIff(s: string, d: string)
    ensures MarkerAt(s) == Some(d) <==> Digits(d) && MarkerText(d) <= s
  {
    if Digits(d) && MarkerText(d) <= s {
      assert s[..|Prefix|] == MarkerText(d)[..|Prefix|] == Prefix;
      var rest := s[|Prefix|..];
      assert rest == d + rest[|d|..];
      assert rest[|d|] == MarkerText(d)[|Prefix| + |d|] == ']';
      DigitRunOf(d, rest[|d|..]);
    }
  }

  // ---------------------------------------------------------------- pieces

  /** One step of the scan: a copied character, or a whole marker. */
  datatype Piece = Char(c: char) | Marker(digits: string)

  function PieceText(p: Piece): string {
    match p
    case Char(c) => [c]
    case Marker(d) => MarkerText(d)
  }

  function Render(ps: seq<Piece>): string {
    if ps == [] then "" else PieceText(ps[0]) + Render(ps[1..])
  }

  lemma RenderCons(p: Piece, ps: seq<Piece>)
    ensures Render([p] + ps) == PieceText(p) + Render(ps)
  {
    assert ([p] + ps)[1..] == ps;
  }

  predicate WellFormed(ps: seq<Piece>) {
    forall i :: 0 <= i < |ps| ==> ps[i].Marker? ==> Digits(ps[i].digits)
  }

  /** The left-to-right scan of a global regular-expression replace. */
  function Scan(s: string): (ps: seq<Piece>)
    ensures WellFormed(ps)
    decreases |s|
  {
    if s == [] then []
    else match MarkerAt(s)
      case Some(d) => [Marker(d)] + Scan(s[|MarkerText(d)|..])
      case None => [Char(s[0])] + Scan(s[1..])
  }

  /** The scan loses nothing: gluing its pieces back gives the text. */
  lemma {:induction false} RenderScan(s: string)
    ensures Render(Scan(s)) == s
    decreases |s|
  {
    if s != [] {
      match MarkerAt(s)
      case Some(d) =>
        var n := |MarkerText(d)|;
        assert Scan(s) == [Marker(d)] + Scan(s[n..]);
        RenderScan(s[n..]);
        RenderCons(Marker(d), Scan(s[n..]));
        assert s == MarkerText(d) + s[n..];
      case None =>
        assert Scan(s) == [Char(s[0])] + Scan(s[1..]);
        RenderScan(s[1..]);
        RenderCons(Char(s[0]), Scan(s[1..]));
        assert s == [s[0]] + s[1..];
    }
  }

  // ---------------------------------------------------------------- resolution

  /**
   * What one piece becomes in `replaceResponsePlaceholders`: a marker whose
   * value k satisfies 1 <= k <= |prompts| becomes node k-1's response; any
   * other marker is written back with the digits it had.
   */
  function Replacement(p: Piece, prompts: seq<Prompt>): string {
    match p
    case Char(c) => [c]
    case Marker(d) =>
      if Digits(d) && 1 <= Value(d) <= |prompts| then prompts[Value(d) - 1].response
      else MarkerText(d)
  }

  /** The pieces with every marker replaced; against an empty list no marker is in range. */
  function Substitute(ps: seq<Piece>, prompts: seq<Prompt>): (r: string)
    ensures prompts == [] ==> r == Render(ps)
  {
    if ps == [] then "" else Replacement(ps[0], prompts) + Substitute(ps[1..], prompts)
  }

  /**
   * `replaceResponsePlaceholders(s)` against the list `prompts`. Against an
   * empty list every marker is out of range, so the text comes back unchanged.
   */
  function Resolve(s: string, prompts: seq<Prompt>): (r: string)
    ensures prompts == [] ==> r == s
  {
    RenderScan(s);
    Substitute(Scan(s), prompts)
  }

  /**
   * A marker at the front is replaced by node k-1's response when
   * 1 <= k <= |prompts|, and kept as written otherwise; the scan then goes on
   * after the marker, so an inserted response is never scanned again.
   */
  lemma ResolveAtMarker(d: string, t: string, prompts: seq<Prompt>)
    requires Digits(d)
    ensures Resolve(MarkerText(d) + t, prompts) ==
            (if 1 <= Value(d) <= |prompts| then prompts[Value(d) - 1].response else MarkerText(d))
            + Resolve(t, prompts)
  {
    var s := MarkerText(d) + t;
    assert Scan(s) == [Marker(d)] + Scan(t) by {
      ScanAtMarker(d, t);
    }
    var head := Replacement(Marker(d), prompts);
    var tail := Resolve(t, prompts);
    assert Resolve(s, prompts) == head + tail by {
      SubstituteCons(Marker(d), Scan(t), prompts);
    }
    ReplacementOfMarker(d, prompts);
  }

  lemma ReplacementOfMarker(d: string, prompts: seq<Prompt>)
    requires Digits(d)
    ensures Replacement(Marker(d), prompts) ==
            if 1 <= Value(d) <= |prompts| then prompts[Value(d) - 1].response else MarkerText(d)
  {
  }

  lemma SubstituteCons(p: Piece, ps: seq<Piece>, prompts: seq<Prompt>)
    ensures Substitute([p] + ps, prompts) == Replacement(p, prompts) + Substitute(ps, prompts)
  {
    assert ([p] + ps)[1..] == ps;
  }

  lemma ScanAtMarker(d: string, t: string)
    requires Digits(d)
    ensures Scan(MarkerText(d) + t) == [Marker(d)] + Scan(t)
  {
    var s := MarkerText(d) + t;
    MarkerAtIff(s, d);
    assert s[|MarkerText(d)|..] == t;
  }

  /** `[RESPONSE 1]` on its own resolves to the response of the first node. */
  lemma ResolveFirstMarker(prompts: seq<Prompt>)
    requires |prompts| >= 1
    ensures Resolve("[RESPONSE 1]", prompts) == prompts[0].response
  {
    assert MarkerText("1") + "" == "[RESPONSE 1]";
    assert Value("1") == 1;
    assert Resolve("", prompts) == "";
    ResolveAtMarker("1", "", prompts);
  }

  /** A character that does not start a marker is copied, and the scan goes on after it. */
  lemma ResolveAtChar(s: string, prompts: seq<Prompt>)
    requires s != [] && MarkerAt(s) == None
    ensures Resolve(s, prompts) == [s[0]] + Resolve(s[1..], prompts)
  {
    assert Scan(s) == [Char(s[0])] + Scan(s[1..]);
    assert Scan(s)[1..] == Scan(s[1..]);
  }

  /** Text in which no marker starts anywhere is returned unchanged. */
  lemma {:induction false} ResolveMarkerFree(s: string, prompts: seq<Prompt>)
    requires forall i :: 0 <= i < |s| ==> MarkerAt(s[i..]) == None
    ensures Resolve(s, prompts) == s
  {
    if s != [] {
      assert s[0..] == s;
      forall i | 0 <= i < |s[1..]| ensures MarkerAt(s[1..][i..]) == None {
        assert s[1..][i..] == s[i + 1..];
      }
      ResolveMarkerFree(s[1..], prompts);
      ResolveAtChar(s, prompts);
      assert s == [s[0]] + s[1..];
    }
  }

  // ---------------------------------------------------------------- normalisation

  /** A marker's digits rewritten to `${Number(d)}`. */
  function Canonical(p: Piece): Piece {
    match p
    case Char(_) => p
    case Marker(d) => if AllDigits(d) then Marker(Show(Value(d))) else p
  }

  function CanonicalAll(ps: seq<Piece>): seq<Piece> {
    if ps == [] then [] else [Canonical(ps[0])] + CanonicalAll(ps[1..])
  }

  /**
   * The replacement `updateResponseNumbers` applies to one user text. It
   * changes only marker digits: the result scans into the same pieces as the
   * input, with every marker's digits replaced by the canonical decimal of its
   * value (`[RESPONSE 007]` becomes `[RESPONSE 7]`).
   */
  function Normalize(s: string): (r: string)
    ensures Scan(r) == CanonicalAll(Scan(s))
  {
    RenderScan(s);
    Rescan(Scan(s));
    Render(CanonicalAll(Scan(s)))
  }

  /** A marker's canonical digits are their own canonical form. */
  lemma {:induction false} CanonicalAllIdempotent(ps: seq<Piece>)
    ensures CanonicalAll(CanonicalAll(ps)) == CanonicalAll(ps)
  {
    if ps != [] {
      CanonicalAllIdempotent(ps[1..]);
      assert CanonicalAll(ps)[1..] == CanonicalAll(ps[1..]);
    }
  }

  /** A piece's text starts with its character, or with the `[` of a marker. */
  lemma PieceTextHead(p: Piece)
    ensures PieceText(p) != [] && PieceText(p)[0] == (if p.Char? then p.c else '[')
  {
  }

  /** `qs` has a character wherever `ps` has one, the same one, and a marker wherever `ps` has one. */
  ghost predicate SameChars(ps: seq<Piece>, qs: seq<Piece>) {
    && |ps| == |qs|
    && forall i :: 0 <= i < |ps| ==> (qs[i].Char? <==> ps[i].Char?) && (ps[i].Char? ==> qs[i] == ps[i])
  }

  /** Canonicalising rewrites markers only. */
  lemma {:induction false} CanonicalAllSameChars(ps: seq<Piece>)
    ensures SameChars(ps, CanonicalAll(ps))
  {
    if ps != [] {
      CanonicalAllSameChars(ps[1..]);
      assert CanonicalAll(ps) == [Canonical(ps[0])] + CanonicalAll(ps[1..]);
    }
  }

  /** A prefix without `[` of the rendering of `qs` is a prefix of the rendering of `ps`. */
  lemma {:induction false} BracketFreePrefix(w: string, ps: seq<Piece>, qs: seq<Piece>)
    requires SameChars(ps, qs) && '[' !in w && w <= Render(qs)
    ensures w <= Render(ps)
  {
    if w != [] && ps != [] {
      FirstPieceIsChar(w, ps, qs);
      PrefixTail(w, Render(qs[1..]));
      NoBracketTail(w);
      SameCharsTail(ps, qs);
      BracketFreePrefix(w[1..], ps[1..], qs[1..]);
      PrefixCons(w, Render(ps[1..]));
    }
  }

  /** Under a `[`-free prefix, both lists start with the character the prefix starts with. */
  lemma FirstPieceIsChar(w: string, ps: seq<Piece>, qs: seq<Piece>)
    requires SameChars(ps, qs) && '[' !in w && w <= Render(qs)
    requires w != [] && ps != []
    ensures ps[0] == qs[0] == Char(w[0])
    ensures Render(ps) == [w[0]] + Render(ps[1..]) && Render(qs) == [w[0]] + Render(qs[1..])
  {
    assert w[0] != '[' by {
      assert w[0] in w;
    }
    PieceTextHead(qs[0]);
    assert w[0] == Render(qs)[0];
  }

  lemma PrefixTail(w: string, t: string)
    requires w != [] && w <= [w[0]] + t
    ensures w[1..] <= t
  {
    assert forall i :: 0 <= i < |w| - 1 ==> w[1..][i] == w[i + 1] == ([w[0]] + t)[i + 1] == t[i];
  }

  lemma PrefixCons(w: string, t: string)
    requires w != [] && w[1..] <= t
    ensures w <= [w[0]] + t
  {
    assert w == [w[0]] + w[1..];
  }

  lemma NoBracketTail(w: string)
    requires '[' !in w && w != []
    ensures '[' !in w[1..]
  {
    assert forall x | x in w[1..] :: x in w;
  }

  lemma SameCharsTail(ps: seq<Piece>, qs: seq<Piece>)
    requires SameChars(ps, qs) && ps != []
    ensures SameChars(ps[1..], qs[1..])
  {
    assert forall i :: 0 <= i < |ps| - 1 ==> ps[1..][i] == ps[i + 1] && qs[1..][i] == qs[i + 1];
  }

  /** A marker is `[` followed by text that holds no further `[`. */
  lemma MarkerTextShape(d: string)
    requires Digits(d)
    ensures MarkerText(d) == ['['] + ("RESPONSE " + d + "]")
    ensures '[' !in "RESPONSE " + d + "]"
  {
    assert Prefix == ['['] + "RESPONSE ";
    assert forall i :: 0 <= i < |d| ==> d[i] != '[';
  }

  /**
   * Rewriting marker digits cannot make a marker appear after a character
   * where there was none: the text such a marker would span holds no `[`.
   */
  lemma MarkerSurvivesRendering(c: char, ps: seq<Piece>)
    requires MarkerAt([c] + Render(CanonicalAll(ps))).Some?
    ensures MarkerAt([c] + Render(ps)).Some?
  {
    var t := [c] + Render(CanonicalAll(ps));
    var d := MarkerAt(t).value;
    var w := "RESPONSE " + d + "]";
    var m := MarkerText(d);
    MarkerTextShape(d);
    assert m == [c] + w && w <= Render(CanonicalAll(ps)) by {
      MarkerAtIff(t, d);
      assert m == t[..|m|];
      assert m[0] == t[0] == c;
      assert w == m[1..] == t[1..|m|];
      assert t[1..] == Render(CanonicalAll(ps));
    }
    CanonicalAllSameChars(ps);
    BracketFreePrefix(w, ps, CanonicalAll(ps));
    MarkerAtIff([c] + Render(ps), d);
  }

  /** Pieces that come from a scan still come from a scan after their markers are canonicalised. */
  lemma {:induction false} Rescan(ps: seq<Piece>)
    requires Scan(Render(ps)) == ps
    ensures Scan(Render(CanonicalAll(ps))) == CanonicalAll(ps)
  {
    if ps != [] {
      var rest := ps[1..];
      assert CanonicalAll(ps) == [Canonical(ps[0])] + CanonicalAll(rest);
      assert CanonicalAll(ps)[1..] == CanonicalAll(rest);
      match ps[0]
      case Char(c) =>
        var s := [c] + Render(rest);
        assert Render(ps) == s;
        assert MarkerAt(s).None?;
        assert s[1..] == Render(rest);
        assert Scan(s)[1..] == Scan(Render(rest));
        Rescan(rest);
        var t := [c] + Render(CanonicalAll(rest));
        assert Render(CanonicalAll(ps)) == t;
        if MarkerAt(t).Some? {
          MarkerSurvivesRendering(c, rest);
          assert false;
        }
        assert t[1..] == Render(CanonicalAll(rest));
        assert Scan(t) == [Char(c)] + Scan(t[1..]);
      case Marker(d) =>
        var s := MarkerText(d) + Render(rest);
        assert Render(ps) == s;
        assert Digits(d);
        MarkerAtIff(s, d);
        assert s[|MarkerText(d)|..] == Render(rest);
        assert Scan(s)[1..] == Scan(Render(rest));
        Rescan(rest);
        var e := Show(Value(d));
        var t := MarkerText(e) + Render(CanonicalAll(rest));
        assert Render(CanonicalAll(ps)) == t;
        MarkerAtIff(t, e);
        assert t[|MarkerText(e)|..] == Render(CanonicalAll(rest));
        assert Scan(t) == [Marker(e)] + Scan(Render(CanonicalAll(rest)));
    }
  }

  /** Normalising twice is normalising once. */
  lemma NormalizeIdempotent(s: string)
    ensures Normalize(Normalize(s)) == Normalize(s)
  {
    CanonicalAllIdempotent(Scan(s));
  }

  // ---------------------------------------------------------------- the list pass

  /**
   * `updateResponseNumbers(newLength, prompts)`: every node keeps every field
   * but `user`, whose markers get canonical digits and nothing else.
   */
  function UpdateResponseNumbers(prompts: seq<Prompt>): (r: seq<Prompt>)
    ensures |r| == |prompts|
    ensures forall i :: 0 <= i < |r| ==>
              r[i] == prompts[i].(user := r[i].user) &&
              Scan(r[i].user) == CanonicalAll(Scan(prompts[i].user))
  {
    if prompts == [] then []
    else
      var rest := UpdateResponseNumbers(prompts[1..]);
      RenumberedCons(prompts, rest);
      [prompts[0].(user := Normalize(prompts[0].user))] + rest
  }

  /** The list pass's contract, carried from the tail to the whole list. */
  lemma RenumberedCons(prompts: seq<Prompt>, rest: seq<Prompt>)
    requires prompts != [] && |rest| == |prompts| - 1
    requires forall i :: 0 <= i < |rest| ==>
               rest[i] == prompts[i + 1].(user := rest[i].user) &&
               Scan(rest[i].user) == CanonicalAll(Scan(prompts[i + 1].user))
    ensures var r := [prompts[0].(user := Normalize(prompts[0].user))] + rest;
      forall i :: 0 <= i < |r| ==>
        r[i] == prompts[i].(user := r[i].user) &&
        Scan(r[i].user) == CanonicalAll(Scan(prompts[i].user))
  {
    var r := [prompts[0].(user := Normalize(prompts[0].user))] + rest;
    forall i | 0 <= i < |r|
      ensures r[i] == prompts[i].(user := r[i].user)
      ensures Scan(r[i].user) == CanonicalAll(Scan(prompts[i].user))
    {
      if i != 0 {
        assert r[i] == rest[i - 1] && prompts[i] == prompts[(i - 1) + 1];
      }
    }
  }

  /** Running the pass again changes nothing. */
  lemma {:induction false} UpdateResponseNumbersIdempotent(prompts: seq<Prompt>)
    ensures UpdateResponseNumbers(UpdateResponseNumbers(prompts)) == UpdateResponseNumbers(prompts)
  {
    var once := UpdateResponseNumbers(prompts);
    var twice := UpdateResponseNumbers(once);
    forall i | 0 <= i < |prompts| ensures twice[i] == once[i] {
      var s := prompts[i].user;
      CanonicalAllIdempotent(Scan(s));
      RenderScan(twice[i].user);
      RenderScan(once[i].user);
    }
  }
}
