/**
 The scanner that finds the bracket closing a JSON array, and the texts it
 scans over unharmed.
 */
module ArrayScanner {
  import opened Json

  // Where the scanner stands: open brackets, inside a string, after a backslash.
  datatype State = State(depth: nat, inString: bool, escaped: bool)

  // One character; nothing where the scan is over, the array closed or a bracket unmatched.
  function Step(s: State, c: char): Option<State> {
    if s.inString then
      if s.escaped then Some(s.(escaped := false))
      else if c == '\\' then Some(s.(escaped := true))
      else if c == '"' then Some(s.(inString := false))
      else Some(s)
    else if c == '"' then Some(s.(inString := true))
    else if c == '[' then Some(s.(depth := s.depth + 1))
    else if c == ']' then if s.depth <= 1 then None else Some(s.(depth := s.depth - 1))
    else Some(s)
  }

  function Track(t: string, s: State): Option<State> {
    if t == [] then Some(s)
    else
      match Step(s, t[0])
      case None => None
      case Some(next) => Track(t[1..], next)
  }

  lemma {:induction false} TrackConcat(t: string, u: string, s: State)
    requires Track(t, s).Some?
    ensures Track(t + u, s) == Track(u, Track(t, s).value)
  {
    if t == [] {
      assert t + u == u;
    } else {
      TrackConcat(t[1..], u, Step(s, t[0]).value);
      assert (t + u)[1..] == t[1..] + u;
    }
  }

  lemma TrackSnoc(t: string, c: char, s: State)
    requires Track(t, s).Some?
    ensures Track(t + [c], s) == Step(Track(t, s).value, c)
  {
    TrackConcat(t, [c], s);
    assert [c][1..] == [];
  }

  // ----- The loop -----

  // The scan reads `body` after the opening bracket and stops at a closing one.
  ghost predicate Closes(contents: string, start: nat, end: nat) {
    && start <= end < |contents|
    && var before := Track(contents[start..end], State(0, false, false));
       before.Some? && !before.value.inString && before.value.depth == 1 && contents[end] == ']'
  }

  method MatchingArrayEnd(contents: string, start: nat) returns (end: Option<nat>)
    requires start <= |contents|
    ensures end.Some? ==> Closes(contents, start, end.value)
    ensures end.None? ==> forall e :: !Closes(contents, start, e)
  {
    var depth, inString, escaped := 0, false, false;
    var i := start;
    assert contents[start..start] == [];
    while i < |contents|
      invariant start <= i <= |contents|
      invariant Track(contents[start..i], State(0, false, false)) == Some(State(depth, inString, escaped))
      invariant forall e :: start <= e < i ==> !Closes(contents, start, e)
    {
      var c := contents[i];
      assert contents[start..i + 1] == contents[start..i] + [c];
      TrackSnoc(contents[start..i], c, State(0, false, false));
      if inString {
        if escaped {
          escaped := false;
        } else if c == '\\' {
          escaped := true;
        } else if c == '"' {
          inString := false;
        }
      } else if c == '"' {
        inString := true;
      } else if c == '[' {
        depth := depth + 1;
      } else if c == ']' {
        if depth == 0 {
          StopsFor(contents, start, i);
          return None;
        }
        if depth == 1 { return Some(i); }
        depth := depth - 1;
      }
      i := i + 1;
    }
    end := None;
  }

  // Once the scan is over, no later bracket closes anything.
  lemma StopsFor(contents: string, start: nat, i: nat)
    requires start <= i < |contents| && Track(contents[start..i + 1], State(0, false, false)).None?
    ensures forall e :: i < e ==> !Closes(contents, start, e)
  {
    forall e | i < e < |contents| ensures !Closes(contents, start, e) {
      assert contents[start..e] == contents[start..i + 1] + contents[i + 1..e];
      TrackDead(contents[start..i + 1], contents[i + 1..e], State(0, false, false));
    }
  }

  lemma {:induction false} TrackDead(t: string, u: string, s: State)
    requires Track(t, s).None?
    ensures Track(t + u, s).None?
  {
    if Step(s, t[0]).Some? {
      TrackDead(t[1..], u, Step(s, t[0]).value);
      assert (t + u)[1..] == t[1..] + u;
    }
  }

  lemma ClosesOnce(contents: string, start: nat, e: nat, f: nat)
    requires Closes(contents, start, e) && Closes(contents, start, f)
    ensures e == f
  {
    var a, b := if e < f then e else f, if e < f then f else e;
    if a < b {
      assert contents[start..a + 1] == contents[start..a] + [contents[a]];
      TrackSnoc(contents[start..a], contents[a], State(0, false, false));
      StopsFor(contents, start, a);
    }
  }

  // ----- Texts that leave the scanner where it was -----

  ghost predicate Balanced(t: string) {
    forall d: nat :: d >= 1 ==> Track(t, State(d, false, false)) == Some(State(d, false, false))
  }

  lemma BalancedEmpty()
    ensures Balanced("")
  {
  }

  lemma BalancedConcat(t: string, u: string)
    requires Balanced(t) && Balanced(u)
    ensures Balanced(t + u)
  {
    forall d: nat | d >= 1 ensures Track(t + u, State(d, false, false)) == Some(State(d, false, false)) {
      TrackConcat(t, u, State(d, false, false));
    }
  }

  predicate Special(c: char) {
    c == '"' || c == '[' || c == ']'
  }

  lemma {:induction false} PlainTrack(t: string, d: nat)
    requires forall i :: 0 <= i < |t| ==> !Special(t[i])
    ensures Track(t, State(d, false, false)) == Some(State(d, false, false))
  {
    if t != [] { PlainTrack(t[1..], d); }
  }

  lemma BalancedPlain(t: string)
    requires forall i :: 0 <= i < |t| ==> !Special(t[i])
    ensures Balanced(t)
  {
    forall d: nat | d >= 1 ensures Track(t, State(d, false, false)) == Some(State(d, false, false)) {
      PlainTrack(t, d);
    }
  }

  lemma ArrayTrack(body: string, d: nat)
    requires Track(body, State(d + 1, false, false)) == Some(State(d + 1, false, false)) && d >= 1
    ensures Track("[" + body + "]", State(d, false, false)) == Some(State(d, false, false))
  {
    var t := "[" + body + "]";
    assert t[0] == '[' && t[1..] == body + [']'];
    TrackSnoc(body, ']', State(d + 1, false, false));
  }

  // A whole array at a deeper level.
  lemma BalancedArray(body: string)
    requires Balanced(body)
    ensures Balanced("[" + body + "]")
  {
    forall d: nat | d >= 1
      ensures Track("[" + body + "]", State(d, false, false)) == Some(State(d, false, false))
    {
      ArrayTrack(body, d);
    }
  }

  // ----- Strings, as in section 7 of RFC 8259 -----

  datatype Unit = Char(c: char) | Escape(c: char)

  predicate Wellformed(u: Unit) {
    u.Char? ==> u.c != '"' && u.c != '\\'
  }

  function UnitText(u: Unit): string {
    if u.Char? then [u.c] else ['\\', u.c]
  }

  function UnitsText(units: seq<Unit>): string {
    if units == [] then "" else UnitText(units[0]) + UnitsText(units[1..])
  }

  function Quoted(units: seq<Unit>): string {
    "\"" + UnitsText(units) + "\""
  }

  lemma {:induction false} UnitsTrack(units: seq<Unit>, d: nat)
    requires forall u :: u in units ==> Wellformed(u)
    ensures Track(UnitsText(units), State(d, true, false)) == Some(State(d, true, false))
  {
    if units != [] {
      var u := units[0];
      assert u in units;
      UnitTrack(u, d);
      TrackConcat(UnitText(u), UnitsText(units[1..]), State(d, true, false));
      UnitsTrack(units[1..], d);
    }
  }

  lemma UnitTrack(u: Unit, d: nat)
    requires Wellformed(u)
    ensures Track(UnitText(u), State(d, true, false)) == Some(State(d, true, false))
  {
    if u.Escape? {
      var t := ['\\', u.c];
      assert t[1..] == [u.c] && [u.c][1..] == [];
      assert Track([], State(d, true, false)) == Some(State(d, true, false));
      assert Track([u.c], State(d, true, true)) == Some(State(d, true, false));
    }
  }

  lemma BalancedQuoted(units: seq<Unit>)
    requires forall u :: u in units ==> Wellformed(u)
    ensures Balanced(Quoted(units))
  {
    forall d: nat | d >= 1
      ensures Track(Quoted(units), State(d, false, false)) == Some(State(d, false, false))
    {
      assert Quoted(units)[1..] == UnitsText(units) + "\"";
      UnitsTrack(units, d);
      TrackSnoc(UnitsText(units), '"', State(d, true, false));
    }
  }

  // ----- Nested text: the shape of any JSON array, in whatever layout -----

  datatype Piece = Plain(c: char) | Text(units: seq<Unit>) | Array(body: seq<Piece>)

  ghost predicate Proper(p: Piece) {
    match p
    case Plain(c) => !Special(c)
    case Text(units) => forall u :: u in units ==> Wellformed(u)
    case Array(body) => forall q :: q in body ==> Proper(q)
  }

  function PieceText(p: Piece): string {
    match p
    case Plain(c) => [c]
    case Text(units) => Quoted(units)
    case Array(body) => "[" + PiecesText(body) + "]"
  }

  function PiecesText(ps: seq<Piece>): string {
    if ps == [] then "" else PieceText(ps[0]) + PiecesText(ps[1..])
  }

  lemma {:induction false} BalancedPiece(p: Piece)
    requires Proper(p)
    ensures Balanced(PieceText(p))
    decreases p, 1
  {
    match p
    case Plain(c) => BalancedPlain([c]);
    case Text(units) => BalancedQuoted(units);
    case Array(body) => {
      BalancedPieces(body);
      BalancedArray(PiecesText(body));
    }
  }

  lemma {:induction false} BalancedPieces(ps: seq<Piece>)
    requires forall p :: p in ps ==> Proper(p)
    ensures Balanced(PiecesText(ps))
    decreases ps, 0
  {
    if ps != [] {
      BalancedPiece(ps[0]);
      BalancedPieces(ps[1..]);
      BalancedConcat(PieceText(ps[0]), PiecesText(ps[1..]));
    } else {
      BalancedEmpty();
    }
  }

  // ----- The scanner finds the end of whatever was printed -----

  ghost predicate IsArray(t: string) {
    exists body :: Balanced(body) && t == "[" + body + "]"
  }

  lemma ClosesArray(prefix: string, t: string, suffix: string)
    requires IsArray(t)
    ensures Closes(prefix + t + suffix, |prefix|, |prefix| + |t| - 1)
  {
    var body :| Balanced(body) && t == "[" + body + "]";
    var contents := prefix + t + suffix;
    assert contents[|prefix|..|prefix| + |t| - 1] == "[" + body;
    assert ("[" + body)[1..] == body;
    assert Track(body, State(1, false, false)) == Some(State(1, false, false));
    assert contents[|prefix| + |t| - 1] == t[|t| - 1] == ']';
  }

  lemma ArrayPieceIsArray(body: seq<Piece>)
    requires Proper(Array(body))
    ensures IsArray(PieceText(Array(body)))
  {
    BalancedPieces(body);
  }
}
