/** The recursive-descent parser as a function of the text still to be read. */
module JsonParser {
  import opened Common
  import opened JsonGrammar
  import opened JsonValue

  const MAX_NESTING_DEPTH := 128

  /** `bounded` turns on the depth and token limits, `maxNodes` the two structure counters. */
  datatype Config = Config(tokens: Tokens, bounded: bool, maxNodes: Option<nat>)

  /** Values and collection members claimed so far. */
  datatype Counts = Counts(nodes: nat, items: nat)

  datatype Position = Position(rest: string, counts: Counts)

  predicate StartsWith(s: string, c: char) {
    s != "" && s[0] == c
  }

  predicate StartsWithDigit(s: string) {
    s != "" && IsDigit(s[0])
  }

  function SkipBlanks(s: string): (r: string)
    ensures |r| <= |s|
  {
    if s != "" && IsBlank(s[0]) then SkipBlanks(s[1..]) else s
  }

  function SkipDigits(s: string): (r: string)
    ensures |r| <= |s|
    ensures StartsWithDigit(s) ==> |r| < |s|
  {
    if StartsWithDigit(s) then SkipDigits(s[1..]) else s
  }

  /** Characters up to and including the closing quote; `escaped` after a backslash. */
  function ScanString(s: string, escaped: bool): (n: Option<nat>)
    ensures n.Some? ==> 1 <= n.value <= |s|
  {
    if s == "" then None
    else if !escaped && s[0] == '"' then Some(1)
    else
      match ScanString(s[1..], !escaped && s[0] == '\\')
      case None => None
      case Some(n) => Some(n + 1)
  }

  /** Decoded string and remaining text. */
  function ParseString(c: Config, s: string): (r: Option<(string, string)>)
    requires StartsWith(s, '"')
    ensures r.Some? ==> |r.value.1| < |s|
  {
    match ScanString(s[1..], false)
    case None => None
    case Some(n) =>
      var raw := s[..n + 1];
      if c.bounded && |raw| > MAX_STRING_BYTES then None
      else
        match c.tokens.decode(raw)
        case None => None
        case Some(value) => Some((value, s[n + 1..]))
  }

  function ScanInteger(s: string): (r: Option<string>)
    ensures r.Some? ==> |r.value| < |s|
  {
    if StartsWith(s, '0') then
      if StartsWithDigit(s[1..]) then None else Some(s[1..])
    else if StartsWithDigit(s) then Some(SkipDigits(s))
    else None
  }

  function ScanFraction(s: string): (r: Option<string>)
    ensures r.Some? ==> |r.value| <= |s|
  {
    if !StartsWith(s, '.') then Some(s)
    else if !StartsWithDigit(s[1..]) then None
    else Some(SkipDigits(s[1..]))
  }

  function ScanExponent(s: string): (r: Option<string>)
    ensures r.Some? ==> |r.value| <= |s|
  {
    if !(StartsWith(s, 'e') || StartsWith(s, 'E')) then Some(s)
    else
      var digits := if StartsWith(s[1..], '+') || StartsWith(s[1..], '-') then s[2..] else s[1..];
      if !StartsWithDigit(digits) then None else Some(SkipDigits(digits))
  }

  /** The text after the number at the start of `s`. */
  function ScanNumber(s: string): (r: Option<string>)
    ensures r.Some? ==> |r.value| < |s|
  {
    match ScanInteger(if StartsWith(s, '-') then s[1..] else s)
    case None => None
    case Some(s2) =>
      match ScanFraction(s2)
      case None => None
      case Some(s3) => ScanExponent(s3)
  }

  function ParseNumber(c: Config, s: string): (r: Option<(Json, string)>)
    ensures r.Some? ==> |r.value.1| < |s|
  {
    match ScanNumber(s)
    case None => None
    case Some(rest) =>
      var lexeme := s[..|s| - |rest|];
      if c.bounded && |lexeme| > MAX_NUMBER_BYTES then None
      else
        match c.tokens.convert(lexeme)
        case None => None
        case Some(n) => Some((Number(n), rest))
  }

  function ParseLiteral(s: string, literal: string, value: Json): (r: Option<(Json, string)>)
    requires literal != ""
    ensures r.Some? ==> |r.value.1| < |s|
  {
    if literal <= s then Some((value, s[|literal|..])) else None
  }

  function ClaimItem(c: Config, k: Counts): Option<Counts> {
    if c.maxNodes.None? then Some(k)
    else if k.items >= c.maxNodes.value then None
    else Some(k.(items := k.items + 1))
  }

  function ClaimNode(c: Config, k: Counts, depth: nat): Option<Counts> {
    if c.bounded && depth > MAX_NESTING_DEPTH then None
    else if c.maxNodes.None? then Some(k)
    else if k.nodes >= c.maxNodes.value then None
    else Some(k.(nodes := k.nodes + 1))
  }

  function At(p: Position, r: Option<(Json, string)>): Option<(Json, Position)> {
    match r
    case None => None
    case Some((value, rest)) => Some((value, p.(rest := rest)))
  }

  function ParseValue(c: Config, start: Position, depth: nat): (r: Option<(Json, Position)>)
    ensures r.Some? ==> |r.value.1.rest| < |start.rest|
    decreases |start.rest|, 4
  {
    match ClaimNode(c, start.counts, depth)
    case None => None
    case Some(counts) => ParseToken(c, Position(SkipBlanks(start.rest), counts), depth)
  }

  /** The choice `parse_value` makes on the first character. */
  function ParseToken(c: Config, p: Position, depth: nat): (r: Option<(Json, Position)>)
    ensures r.Some? ==> |r.value.1.rest| < |p.rest|
    decreases |p.rest|, 3
  {
    var s := p.rest;
    if s == "" then None
    else if s[0] == 'n' then At(p, ParseLiteral(s, "null", Null))
    else if s[0] == 't' then At(p, ParseLiteral(s, "true", Bool(true)))
    else if s[0] == 'f' then At(p, ParseLiteral(s, "false", Bool(false)))
    else if s[0] == '"' then
      match ParseString(c, s)
      case None => None
      case Some((value, rest)) => Some((Text(value), p.(rest := rest)))
    else if s[0] == '[' then ParseArray(c, p, depth + 1)
    else if s[0] == '{' then ParseObject(c, p, depth + 1)
    else if s[0] == '-' || IsDigit(s[0]) then At(p, ParseNumber(c, s))
    else None
  }

  function ParseArray(c: Config, p: Position, depth: nat): (r: Option<(Json, Position)>)
    requires StartsWith(p.rest, '[')
    ensures r.Some? ==> |r.value.1.rest| < |p.rest|
    decreases |p.rest|, 2
  {
    var inner := SkipBlanks(p.rest[1..]);
    if StartsWith(inner, ']') then Some((Array([]), p.(rest := inner[1..])))
    else ParseItems(c, p.(rest := inner), depth, [])
  }

  function ParseObject(c: Config, p: Position, depth: nat): (r: Option<(Json, Position)>)
    requires StartsWith(p.rest, '{')
    ensures r.Some? ==> |r.value.1.rest| < |p.rest|
    decreases |p.rest|, 2
  {
    var inner := SkipBlanks(p.rest[1..]);
    if StartsWith(inner, '}') then Some((Object([]), p.(rest := inner[1..])))
    else ParseMembers(c, p.(rest := inner), depth, [], {})
  }

  /** The loop of `parse_array`, with the elements read so far. */
  function ParseItems(c: Config, start: Position, depth: nat, values: seq<Json>): (r: Option<(Json, Position)>)
    ensures r.Some? ==> |r.value.1.rest| < |start.rest|
    decreases |start.rest|, 6
  {
    match ClaimItem(c, start.counts)
    case None => None
    case Some(counts) =>
      match ParseValue(c, start.(counts := counts), depth)
      case None => None
      case Some((value, p)) => ContinueItems(c, p, depth, values + [value])
  }

  /** After an element: the bracket ends the array, a comma continues it. */
  function ContinueItems(c: Config, p: Position, depth: nat, values: seq<Json>): (r: Option<(Json, Position)>)
    ensures r.Some? ==> |r.value.1.rest| < |p.rest|
    decreases |p.rest|, 7
  {
    var s := SkipBlanks(p.rest);
    if StartsWith(s, ']') then Some((Array(values), p.(rest := s[1..])))
    else if StartsWith(s, ',') then ParseItems(c, p.(rest := SkipBlanks(s[1..])), depth, values)
    else None
  }

  /** The loop of `parse_object`, with the members and the names read so far. */
  function ParseMembers(c: Config, start: Position, depth: nat, entries: seq<(string, Json)>, seen: set<string>):
    (r: Option<(Json, Position)>)
    ensures r.Some? ==> |r.value.1.rest| < |start.rest|
    decreases |start.rest|, 6
  {
    match ClaimItem(c, start.counts)
    case None => None
    case Some(counts) =>
      match ParseKey(c, start.rest, seen)
      case None => None
      case Some((key, rest)) =>
        match ParseValue(c, Position(rest, counts), depth)
        case None => None
        case Some((value, p)) => ContinueMembers(c, p, depth, entries + [(key, value)], seen + {key})
  }

  /** A member name that is new, and the colon after it. */
  function ParseKey(c: Config, s: string, seen: set<string>): (r: Option<(string, string)>)
    ensures r.Some? ==> |r.value.1| < |s|
  {
    if !StartsWith(s, '"') then None
    else
      match ParseString(c, s)
      case None => None
      case Some((key, rest)) =>
        var colon := SkipBlanks(rest);
        if key in seen || !StartsWith(colon, ':') then None else Some((key, colon[1..]))
  }

  function ContinueMembers(c: Config, p: Position, depth: nat, entries: seq<(string, Json)>, seen: set<string>):
    (r: Option<(Json, Position)>)
    ensures r.Some? ==> |r.value.1.rest| < |p.rest|
    decreases |p.rest|, 7
  {
    var s := SkipBlanks(p.rest);
    if StartsWith(s, '}') then Some((Object(entries), p.(rest := s[1..])))
    else if StartsWith(s, ',') then ParseMembers(c, p.(rest := SkipBlanks(s[1..])), depth, entries, seen)
    else None
  }

  /** A value with blanks around it and nothing else. */
  function ParseAll(c: Config, text: string): Option<Json> {
    match ParseValue(c, Position(SkipBlanks(text), Counts(0, 0)), 0)
    case None => None
    case Some((value, p)) => if SkipBlanks(p.rest) == "" then Some(value) else None
  }

  /** `parse_with_byte_budget`: a byte limit also turns on the depth and token limits. */
  function ParseDocument(tokens: Tokens, maxBytes: Option<nat>, maxNodes: Option<nat>, text: string): Option<Json> {
    if maxBytes.Some? && |text| > maxBytes.value then None else ParseAll(Config(tokens, maxBytes.Some?, maxNodes), text)
  }
}
