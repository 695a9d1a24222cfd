/**
 A reader for arrays of flat JSON objects, after sections 2 to 7 of RFC 8259: members are
 strings or natural numbers, and an escaped surrogate is refused.
 */
module RecordReader {
  import opened Json
  import opened Text

  datatype Item = Word(text: string) | Count(n: nat)

  datatype Entry = Entry(name: string, item: Item)

  predicate Space(c: char) {
    c == ' ' || c == '\n' || c == '\t' || c == '\r'
  }

  function SkipSpace(t: string): (r: string)
    ensures |r| <= |t| && (r != "" ==> !Space(r[0]))
  {
    if t != "" && Space(t[0]) then SkipSpace(t[1..]) else t
  }

  /** What follows the character, which comes first after spaces. */
  function Expect(t: string, c: char): (r: Option<string>)
    ensures r.Some? ==> |r.value| < |t|
  {
    var u := SkipSpace(t);
    if u != "" && u[0] == c then Some(u[1..]) else None
  }

  // ----- Strings

  function HexValue(c: char): (r: Option<nat>)
    ensures r.Some? ==> r.value < 16
  {
    if '0' <= c <= '9' then Some(c as int - '0' as int)
    else if 'a' <= c <= 'f' then Some(c as int - 'a' as int + 10)
    else if 'A' <= c <= 'F' then Some(c as int - 'A' as int + 10)
    else None
  }

  function ReadHex(t: string): Option<char> {
    if |t| < 4 then None
    else
      match (HexValue(t[0]), HexValue(t[1]), HexValue(t[2]), HexValue(t[3]))
      case (Some(a), Some(b), Some(c), Some(d)) =>
        var n := ((a * 16 + b) * 16 + c) * 16 + d;
        if n < 0xD800 || 0xE000 <= n then Some(n as char) else None
      case _ => None
  }

  function Unescaped(c: char): Option<char> {
    if c == '"' || c == '\\' || c == '/' then Some(c)
    else if c == 'b' then Some(8 as char)
    else if c == 'f' then Some(12 as char)
    else if c == 'n' then Some('\n')
    else if c == 'r' then Some('\r')
    else if c == 't' then Some('\t')
    else None
  }

  /** One character of a string, written plainly or escaped. */
  function ReadChar(t: string): (r: Option<(char, string)>)
    ensures r.Some? ==> |r.value.1| < |t|
  {
    if t == "" || t[0] < ' ' || t[0] == '"' then None
    else if t[0] != '\\' then Some((t[0], t[1..]))
    else if |t| < 2 then None
    else if t[1] == 'u' then
      match ReadHex(t[2..])
      case None => None
      case Some(c) => Some((c, t[6..]))
    else
      match Unescaped(t[1])
      case None => None
      case Some(c) => Some((c, t[2..]))
  }

  /** The rest of a string, after its opening quote. */
  function ReadChars(t: string): (r: Option<(string, string)>)
    ensures r.Some? ==> |r.value.1| < |t|
    decreases |t|
  {
    if t != "" && t[0] == '"' then Some(("", t[1..]))
    else
      match ReadChar(t)
      case None => None
      case Some((c, rest)) =>
        match ReadChars(rest)
        case None => None
        case Some((s, more)) => Some(([c] + s, more))
  }

  // ----- Numbers

  /** The number that goes on with the digits at the front. */
  function ReadDigits(t: string, n: nat): (r: (nat, string))
    ensures |r.1| <= |t| && (t != "" && Digit(t[0]) ==> |r.1| < |t|)
  {
    if t != "" && Digit(t[0]) then ReadDigits(t[1..], 10 * n + (t[0] as int - '0' as int)) else (n, t)
  }

  // ----- Members, objects and the array

  function ReadItem(t: string): (r: Option<(Item, string)>)
    ensures r.Some? ==> |r.value.1| < |t|
  {
    if t == "" then None
    else if t[0] == '"' then
      match ReadChars(t[1..])
      case None => None
      case Some((s, rest)) => Some((Word(s), rest))
    else if Digit(t[0]) then
      var (n, rest) := ReadDigits(t, 0);
      Some((Count(n), rest))
    else None
  }

  function ReadMember(t: string): (r: Option<(Entry, string)>)
    ensures r.Some? ==> |r.value.1| < |t|
  {
    match Expect(t, '"')
    case None => None
    case Some(quoted) =>
      match ReadChars(quoted)
      case None => None
      case Some((name, after)) =>
        match Expect(after, ':')
        case None => None
        case Some(value) =>
          match ReadItem(SkipSpace(value))
          case None => None
          case Some((item, rest)) => Some((Entry(name, item), rest))
  }

  /** The members of an object with at least one, and what follows its brace. */
  function ReadMembers(t: string): (r: Option<(seq<Entry>, string)>)
    ensures r.Some? ==> |r.value.1| < |t|
    decreases |t|
  {
    match ReadMember(t)
    case None => None
    case Some((e, rest)) =>
      match (Expect(rest, ','), Expect(rest, '}'))
      case (Some(more), _) =>
        (match ReadMembers(more)
         case None => None
         case Some((es, end)) => Some(([e] + es, end)))
      case (None, Some(end)) => Some(([e], end))
      case _ => None
  }

  function ReadObject(t: string): (r: Option<(seq<Entry>, string)>)
    ensures r.Some? ==> |r.value.1| < |t|
  {
    match Expect(t, '{')
    case None => None
    case Some(inner) =>
      match Expect(inner, '}')
      case Some(end) => Some(([], end))
      case None => ReadMembers(inner)
  }

  /** The objects of an array with at least one, and what follows its bracket. */
  function ReadObjects(t: string): (r: Option<(seq<seq<Entry>>, string)>)
    ensures r.Some? ==> |r.value.1| < |t|
    decreases |t|
  {
    match ReadObject(t)
    case None => None
    case Some((o, rest)) =>
      match (Expect(rest, ','), Expect(rest, ']'))
      case (Some(more), _) =>
        (match ReadObjects(more)
         case None => None
         case Some((os, end)) => Some(([o] + os, end)))
      case (None, Some(end)) => Some(([o], end))
      case _ => None
  }

  function ReadArray(t: string): Option<(seq<seq<Entry>>, string)> {
    match Expect(t, '[')
    case None => None
    case Some(inner) =>
      match Expect(inner, ']')
      case Some(end) => Some(([], end))
      case None => ReadObjects(inner)
  }
}
