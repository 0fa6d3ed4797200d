/** Captured JSON values and their measures. */
module JsonValue {
  import opened Lexeme

  /** A captured value; members keep their order. */
  datatype Json =
    | Null
    | Bool(b: bool)
    | Number(n: CapturedNumber)
    | Text(s: string)
    | Array(items: seq<Json>)
    | Object(entries: seq<(string, Json)>)

  predicate DistinctKeys(entries: seq<(string, Json)>) {
    forall i, j :: 0 <= i < j < |entries| ==> entries[i].0 != entries[j].0
  }

  /** No name is repeated, and none was seen before. */
  predicate FreshKeys(es: seq<(string, Json)>, seen: set<string>) {
    DistinctKeys(es) && forall e <- es :: e.0 !in seen
  }

  lemma EntriesJoin(entries: seq<(string, Json)>, e: (string, Json), rest: seq<(string, Json)>, seen: set<string>)
    ensures entries + [e] + rest == entries + ([e] + rest)
    ensures FreshKeys([e] + rest, seen) <==> e.0 !in seen && FreshKeys(rest, seen + {e.0})
  {
    var all := [e] + rest;
    if FreshKeys(all, seen) {
      assert all[0] == e && e in all;
      forall i | 0 <= i < |rest|
        ensures rest[i].0 != e.0 && rest[i] in all
      {
        assert all[i + 1] == rest[i] && all[0].0 != all[i + 1].0;
      }
      forall i, j | 0 <= i < j < |rest|
        ensures rest[i].0 != rest[j].0
      {
        assert all[i + 1].0 != all[j + 1].0;
      }
    }
    if e.0 !in seen && FreshKeys(rest, seen + {e.0}) {
      forall i, j | 0 <= i < j < |all|
        ensures all[i].0 != all[j].0
      {
        assert all[j] == rest[j - 1] && rest[j - 1] in rest;
      }
    }
  }

  lemma NoSeenKeys(es: seq<(string, Json)>)
    ensures FreshKeys(es, {}) == DistinctKeys(es)
  {
  }

  /** No object repeats a member name, at any depth. */
  predicate UniqueKeys(v: Json) {
    match v
    case Array(items) => forall item <- items :: UniqueKeys(item)
    case Object(entries) => DistinctKeys(entries) && forall e <- entries :: UniqueKeys(e.1)
    case _ => true
  }

  /** All values, the root included. */
  function NodesOf(v: Json): (n: nat)
    ensures n >= 1
  {
    match v
    case Array(items) => 1 + NodesOfItems(items)
    case Object(entries) => 1 + NodesOfEntries(entries)
    case _ => 1
  }

  function NodesOfItems(items: seq<Json>): nat {
    if items == [] then 0 else NodesOf(items[0]) + NodesOfItems(items[1..])
  }

  function NodesOfEntries(entries: seq<(string, Json)>): nat {
    if entries == [] then 0
    else
      var e := entries[0];
      assert (entries decreases to e) && (e decreases to e.1);
      NodesOf(e.1) + NodesOfEntries(entries[1..])
  }

  function Max(a: nat, b: nat): nat {
    if a >= b then a else b
  }

  /** Depth of the deepest value below the root. */
  function DepthOf(v: Json): nat {
    match v
    case Array(items) => DepthOfItems(items)
    case Object(entries) => DepthOfEntries(entries)
    case _ => 0
  }

  function DepthOfItems(items: seq<Json>): nat {
    if items == [] then 0 else Max(1 + DepthOf(items[0]), DepthOfItems(items[1..]))
  }

  function DepthOfEntries(entries: seq<(string, Json)>): nat {
    if entries == [] then 0
    else
      var e := entries[0];
      assert (entries decreases to e) && (e decreases to e.1);
      Max(1 + DepthOf(e.1), DepthOfEntries(entries[1..]))
  }
}
