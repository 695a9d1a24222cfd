/** JSON Pointer tokens, sections 3 and 4 of RFC 6901, as xtask/src/contract_diff.rs writes and
    reads them. */
module Pointer {
  import opened Json
  import Text

  /** `str::replace` of one character by a string, over the whole text. */
  function Replace(s: string, from: char, to: string): string {
    if s == [] then [] else (if s[0] == from then to else [s[0]]) + Replace(s[1..], from, to)
  }

  /** The two passes of the source: every tilde first, then every slash. */
  function Escape(s: string): string {
    Replace(Replace(s, '~', "~0"), '/', "~1")
  }

  /** What becomes of one character. */
  function EscapeChar(c: char): string {
    if c == '~' then "~0" else if c == '/' then "~1" else [c]
  }

  /** One step of reading a token: the character read and what is left, or failure. */
  function Unescape(s: string): Option<string> {
    if s == [] then Some([])
    else if s[0] != '~' then Prepend(s[0], Unescape(s[1..]))
    else if |s| < 2 then None
    else if s[1] == '0' then Prepend('~', Unescape(s[2..]))
    else if s[1] == '1' then Prepend('/', Unescape(s[2..]))
    else None
  }

  function Prepend(c: char, rest: Option<string>): Option<string> {
    match rest
    case Some(s) => Some([c] + s)
    case None => None
  }

  function Append(s: string, rest: Option<string>): Option<string> {
    match rest
    case Some(t) => Some(s + t)
    case None => None
  }

  /** `unescape_pointer`: one pass over the characters, building the output. */
  method UnescapePointer(value: string) returns (r: Option<string>)
    ensures r == Unescape(value)
  {
    var output, i := "", 0;
    assert value[0..] == value;
    AppendNothing(Unescape(value));
    while i < |value|
      invariant 0 <= i <= |value|
      invariant Unescape(value) == Append(output, Unescape(value[i..]))
    {
      ghost var before := output;
      var c := value[i];
      if c == '~' {
        if i + 1 == |value| { return None; }
        match value[i + 1] {
          case '0' => output := output + ['~'];
          case '1' => output := output + ['/'];
          case _ => return None;
        }
        assert value[i..][2..] == value[i + 2..];
        AppendPrepend(before, output[|before|], Unescape(value[i + 2..]));
        i := i + 2;
      } else {
        output := output + [c];
        assert value[i..][1..] == value[i + 1..];
        AppendPrepend(before, c, Unescape(value[i + 1..]));
        i := i + 1;
      }
    }
    assert value[i..] == [] && output + [] == output;
    r := Some(output);
  }

  lemma AppendNothing(rest: Option<string>)
    ensures Append("", rest) == rest
  {
    if rest.Some? { assert "" + rest.value == rest.value; }
  }

  lemma AppendPrepend(s: string, c: char, rest: Option<string>)
    ensures Append(s, Prepend(c, rest)) == Append(s + [c], rest)
  {
    if rest.Some? { assert s + ([c] + rest.value) == s + [c] + rest.value; }
  }

  lemma {:induction false} ReplaceConcat(s: string, t: string, from: char, to: string)
    ensures Replace(s + t, from, to) == Replace(s, from, to) + Replace(t, from, to)
  {
    if s == [] {
      assert s + t == t;
    } else {
      assert (s + t)[1..] == s[1..] + t;
      ReplaceConcat(s[1..], t, from, to);
    }
  }

  /** Two passes do what one pass over the characters would. */
  lemma EscapeFirst(s: string)
    requires s != []
    ensures Escape(s) == EscapeChar(s[0]) + Escape(s[1..])
  {
    var head := if s[0] == '~' then "~0" else [s[0]];
    ReplaceConcat(head, Replace(s[1..], '~', "~0"), '/', "~1");
    if s[0] == '~' {
      assert Replace("~0", '/', "~1") == "~0" by {
        assert "~0"[1..] == "0" && "0"[1..] == [];
      }
    } else {
      assert head[1..] == [];
    }
  }

  /** A token never contains a separator. */
  lemma {:induction false} EscapeHasNoSlash(s: string)
    ensures '/' !in Escape(s)
  {
    if s != [] {
      EscapeFirst(s);
      EscapeHasNoSlash(s[1..]);
    }
  }

  lemma {:induction false} UnescapeEscape(s: string)
    ensures Unescape(Escape(s)) == Some(s)
  {
    if s != [] {
      EscapeFirst(s);
      UnescapeEscape(s[1..]);
      var rest := Escape(s[1..]);
      assert (EscapeChar(s[0]) + rest)[|EscapeChar(s[0])|..] == rest;
      assert s == [s[0]] + s[1..];
    }
  }

  /** Escaping undoes every successful reading of a token, so a token is readable exactly when
      it is an escape of something. */
  lemma {:induction false} EscapeUnescape(t: string)
    requires '/' !in t && Unescape(t).Some?
    ensures Escape(Unescape(t).value) == t
    decreases |t|
  {
    if t != [] {
      var s := Unescape(t).value;
      var n := if t[0] == '~' then 2 else 1;
      EscapeUnescape(t[n..]);
      EscapeFirst(s);
      assert s[1..] == Unescape(t[n..]).value;
      assert t == t[..n] + t[n..];
    }
  }

  lemma ReadableExactly(t: string)
    requires '/' !in t
    ensures Unescape(t).Some? <==> exists s :: t == Escape(s)
  {
    if Unescape(t).Some? {
      EscapeUnescape(t);
    }
    if s :| t == Escape(s) {
      UnescapeEscape(s);
    }
  }

  lemma EscapeInjective(s: string, t: string)
    requires Escape(s) == Escape(t)
    ensures s == t
  {
    UnescapeEscape(s);
    UnescapeEscape(t);
  }

  // ---- References to a message of a channel

  const CHANNELS := "#/channels/"
  const MESSAGES := "/messages/"

  /** `referenced_channel_message`. */
  function ReferencedChannelMessage(value: Json): Option<(string, string)> {
    if !value.Obj? then None
    else
      match Get(value.fields, "$ref")
      case Some(Str(reference)) =>
        if !Text.Matches(reference, CHANNELS, 0) then None
        else
          var remainder := reference[|CHANNELS|..];
          (match Text.Find(remainder, MESSAGES, 0)
           case None => None
           case Some(i) =>
             match (Unescape(remainder[..i]), Unescape(remainder[i + |MESSAGES|..]))
             case (Some(channel), Some(message)) => Some((channel, message))
             case _ => None)
      case _ => None
  }

  function MessageReference(channel: string, message: string): Json {
    Obj(map["$ref" := Str(CHANNELS + (Escape(channel) + MESSAGES + Escape(message)))])
  }

  /** Any pair of names is recovered from its reference, whatever characters they hold. */
  lemma ReferenceRoundTrip(channel: string, message: string)
    ensures ReferencedChannelMessage(MessageReference(channel, message)) == Some((channel, message))
  {
    var before, after := Escape(channel), Escape(message);
    var remainder := before + MESSAGES + after;
    var reference := CHANNELS + remainder;
    assert reference[|CHANNELS|..] == remainder && reference[..|CHANNELS|] == CHANNELS;
    assert reference[0..0 + |CHANNELS|] == reference[..|CHANNELS|];
    EscapeHasNoSlash(channel);
    Text.FindAfter(before, MESSAGES, after);
    assert remainder[..|before|] == before && remainder[|before| + |MESSAGES|..] == after;
    UnescapeEscape(channel);
    UnescapeEscape(message);
  }

  /** A name is escaped character by character: a tilde as `~0`, a slash as `~1`, anything else as
      itself. */
  lemma EscapeExactly(s: string, t: string)
    ensures Escape(s + t) == Escape(s) + Escape(t)
    ensures Escape(['~']) == ['~', '0'] && Escape(['/']) == ['~', '1']
    ensures forall c :: c != '~' && c != '/' ==> Escape([c]) == [c]
  {
    ReplaceConcat(s, t, '~', "~0");
    ReplaceConcat(Replace(s, '~', "~0"), Replace(t, '~', "~0"), '/', "~1");
    EscapeOne('~');
    EscapeOne('/');
    forall c | c != '~' && c != '/' ensures Escape([c]) == [c] { EscapeOne(c); }
  }

  lemma EscapeOne(c: char)
    ensures Escape([c]) == if c == '~' then ['~', '0'] else if c == '/' then ['~', '1'] else [c]
  {
    EscapeFirst([c]);
    assert [c][1..] == [];
    assert Escape([]) == [];
  }
}
