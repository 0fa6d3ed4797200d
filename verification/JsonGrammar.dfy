/** The JSON grammar of RFC 8259, sections 2 to 7: syntax trees, their text, and their meaning. */
module JsonGrammar {
  import opened Common
  import opened JsonValue
  import opened Lexeme

  /** Concrete syntax, with every blank recorded. A string is kept as its raw token. */
  datatype Syntax =
    | SNull | STrue | SFalse
    | SNumber(parts: NumberParts)
    | SString(raw: string)
    | SEmptyArray(blank: string)
    | SArray(items: Items)
    | SEmptyObject(blank: string)
    | SObject(members: Members)

  datatype Items =
    | LastItem(before: string, value: Syntax, after: string)
    | MoreItems(before: string, value: Syntax, after: string, rest: Items)

  datatype Members =
    | LastMember(before: string, key: string, gap: string, gap2: string, value: Syntax, after: string)
    | MoreMembers(before: string, key: string, gap: string, gap2: string, value: Syntax, after: string, rest: Members)

  predicate IsBlank(c: char) {
    c == ' ' || c == '\t' || c == '\r' || c == '\n'
  }

  predicate Blank(s: string) {
    forall c <- s :: IsBlank(c)
  }

  /** Characters between the quotes: a backslash takes the next character with it. */
  predicate StringBody(s: string) {
    if s == "" then true
    else if s[0] == '\\' then |s| >= 2 && StringBody(s[2..])
    else s[0] != '"' && StringBody(s[1..])
  }

  predicate StringToken(raw: string) {
    |raw| >= 2 && raw[0] == '"' && raw[|raw| - 1] == '"' && StringBody(raw[1..|raw| - 1])
  }

  predicate WellFormed(t: Syntax) {
    match t
    case SNull => true
    case STrue => true
    case SFalse => true
    case SNumber(parts) => ValidNumber(parts)
    case SString(raw) => StringToken(raw)
    case SEmptyArray(blank) => Blank(blank)
    case SArray(items) => WellFormedItems(items)
    case SEmptyObject(blank) => Blank(blank)
    case SObject(members) => WellFormedMembers(members)
  }

  predicate WellFormedItems(l: Items) {
    && Blank(l.before) && WellFormed(l.value) && Blank(l.after)
    && (l.MoreItems? ==> WellFormedItems(l.rest))
  }

  predicate WellFormedMembers(l: Members) {
    && Blank(l.before) && StringToken(l.key) && Blank(l.gap) && Blank(l.gap2) && WellFormed(l.value) && Blank(l.after)
    && (l.MoreMembers? ==> WellFormedMembers(l.rest))
  }

  // -------------------------------------------------------------------- text

  function TextOf(t: Syntax): string {
    match t
    case SNull => "null"
    case STrue => "true"
    case SFalse => "false"
    case SNumber(parts) => NumberText(parts)
    case SString(raw) => raw
    case SEmptyArray(blank) => "[" + blank + "]"
    case SArray(items) => "[" + ItemsText(items) + "]"
    case SEmptyObject(blank) => "{" + blank + "}"
    case SObject(members) => "{" + MembersText(members) + "}"
  }

  function ItemsText(l: Items): string {
    l.before + TextOf(l.value) + l.after + if l.MoreItems? then "," + ItemsText(l.rest) else ""
  }

  function MembersText(l: Members): string {
    l.before + l.key + l.gap + ":" + l.gap2 + TextOf(l.value) + l.after
    + if l.MoreMembers? then "," + MembersText(l.rest) else ""
  }

  // ----------------------------------------------------------------- meaning

  /** How raw tokens become values; `decode` stands for the JSON string decoder. */
  datatype Tokens = Tokens(decode: string -> Option<string>, convert: string -> Option<CapturedNumber>)

  /** The value of a tree, if every token converts and no object repeats a decoded member name. */
  function Meaning(k: Tokens, t: Syntax): Option<Json> {
    match t
    case SNull => Some(Null)
    case STrue => Some(Bool(true))
    case SFalse => Some(Bool(false))
    case SNumber(parts) =>
      (match k.convert(NumberText(parts)) case Some(n) => Some(Number(n)) case None => None)
    case SString(raw) =>
      (match k.decode(raw) case Some(s) => Some(Text(s)) case None => None)
    case SEmptyArray(_) => Some(Array([]))
    case SArray(items) =>
      (match ItemsMeaning(k, items) case Some(vs) => Some(Array(vs)) case None => None)
    case SEmptyObject(_) => Some(Object([]))
    case SObject(members) =>
      (match MembersMeaning(k, members)
       case Some(es) => if DistinctKeys(es) then Some(Object(es)) else None
       case None => None)
  }

  function ItemsMeaning(k: Tokens, l: Items): Option<seq<Json>> {
    match Meaning(k, l.value)
    case None => None
    case Some(v) =>
      if l.LastItem? then Some([v])
      else match ItemsMeaning(k, l.rest) case None => None case Some(vs) => Some([v] + vs)
  }

  function MembersMeaning(k: Tokens, l: Members): Option<seq<(string, Json)>> {
    match k.decode(l.key)
    case None => None
    case Some(key) =>
      match Meaning(k, l.value)
      case None => None
      case Some(v) =>
        if l.LastMember? then Some([(key, v)])
        else match MembersMeaning(k, l.rest) case None => None case Some(es) => Some([(key, v)] + es)
  }

  // ---------------------------------------------------------------- measures

  function Nodes(t: Syntax): nat {
    match t
    case SArray(items) => 1 + ItemsNodes(items)
    case SObject(members) => 1 + MembersNodes(members)
    case _ => 1
  }

  function ItemsNodes(l: Items): nat {
    Nodes(l.value) + if l.MoreItems? then ItemsNodes(l.rest) else 0
  }

  function MembersNodes(l: Members): nat {
    Nodes(l.value) + if l.MoreMembers? then MembersNodes(l.rest) else 0
  }

  /** Array elements and object members, at every depth. */
  function Children(t: Syntax): nat {
    match t
    case SArray(items) => ItemsChildren(items)
    case SObject(members) => MembersChildren(members)
    case _ => 0
  }

  function ItemsChildren(l: Items): nat {
    1 + Children(l.value) + if l.MoreItems? then ItemsChildren(l.rest) else 0
  }

  function MembersChildren(l: Members): nat {
    1 + Children(l.value) + if l.MoreMembers? then MembersChildren(l.rest) else 0
  }

  /** Depth of the deepest value below the root. */
  function Height(t: Syntax): nat {
    match t
    case SArray(items) => 1 + ItemsHeight(items)
    case SObject(members) => 1 + MembersHeight(members)
    case _ => 0
  }

  function ItemsHeight(l: Items): nat {
    Max(Height(l.value), if l.MoreItems? then ItemsHeight(l.rest) else 0)
  }

  function MembersHeight(l: Members): nat {
    Max(Height(l.value), if l.MoreMembers? then MembersHeight(l.rest) else 0)
  }

  const MAX_STRING_BYTES := 262_144
  const MAX_NUMBER_BYTES := 1024

  /** Every string and number token is within the token limits. */
  predicate TokensFit(t: Syntax) {
    match t
    case SNumber(parts) => |NumberText(parts)| <= 1024
    case SString(raw) => |raw| <= 262_144
    case SArray(items) => ItemsTokensFit(items)
    case SObject(members) => MembersTokensFit(members)
    case _ => true
  }

  predicate ItemsTokensFit(l: Items) {
    TokensFit(l.value) && (l.MoreItems? ==> ItemsTokensFit(l.rest))
  }

  predicate MembersTokensFit(l: Members) {
    |l.key| <= 262_144 && TokensFit(l.value) && (l.MoreMembers? ==> MembersTokensFit(l.rest))
  }

  /** Every value but the root is exactly one element or member. */
  lemma {:induction false} NodesAndChildren(t: Syntax)
    ensures Nodes(t) == Children(t) + 1
  {
    match t
    case SArray(items) => ItemNodesAndChildren(items);
    case SObject(members) => MemberNodesAndChildren(members);
    case _ =>
  }

  lemma {:induction false} ItemNodesAndChildren(l: Items)
    ensures ItemsNodes(l) == ItemsChildren(l)
  {
    NodesAndChildren(l.value);
    if l.MoreItems? { ItemNodesAndChildren(l.rest); }
  }

  lemma {:induction false} MemberNodesAndChildren(l: Members)
    ensures MembersNodes(l) == MembersChildren(l)
  {
    NodesAndChildren(l.value);
    if l.MoreMembers? { MemberNodesAndChildren(l.rest); }
  }
}
