/** Object keys, digests and the physical location of an object. */
module Identity {
  import opened Common

  const MAX_KEY_BYTES := 1024
  const DIGEST_PREFIX := "sha256:"

  /** `sha256:` and 64 lower-case hexadecimal characters. */
  predicate ValidDigest(s: string) {
    |s| == 71 && s[..7] == DIGEST_PREFIX && forall i :: 7 <= i < 71 ==> IsLowerHex(s[i])
  }

  type Digest = s: string | ValidDigest(s) witness DIGEST_PREFIX + seq(64, _ => '0')

  function ParseDigest(s: string): Option<Digest> {
    if ValidDigest(s) then Some(s) else None
  }

  lemma DigestIff(s: string)
    ensures ValidDigest(s) <==> |s| == 71 && "sha256:" <= s && forall c <- s[7..] :: '0' <= c <= '9' || 'a' <= c <= 'f'
  {
    if ValidDigest(s) {
      forall c | c in s[7..]
        ensures '0' <= c <= '9' || 'a' <= c <= 'f'
      {
        var i :| 0 <= i < |s[7..]| && s[7..][i] == c;
        assert IsLowerHex(s[i + 7]);
      }
    }
    if |s| == 71 && "sha256:" <= s { assert forall i :: 7 <= i < 71 ==> s[i] == s[7..][i - 7] && s[i] in s[7..]; }
  }

  predicate ValidKeyChar(c: char) {
    IsAlphanumeric(c) || c in "-_./=@"
  }

  predicate ValidKey(s: string) {
    && 0 < |s| <= MAX_KEY_BYTES
    && s[0] != '/' && s[|s| - 1] != '/'
    && (forall i :: 0 <= i < |s| ==> ValidKeyChar(s[i]))
    && (forall part <- Split(s, '/') :: part != "" && part != "." && part != "..")
  }

  function SingleLetterKey(): (k: string)
    ensures ValidKey(k)
  {
    var k := "k";
    assert k[1..] == "" && [k[0]] + "" == k;
    assert Split(k, '/') == [[k[0]] + ""] + [""][1..] == [k];
    k
  }

  type ObjectKey = s: string | ValidKey(s) witness SingleLetterKey()

  function ParseKey(s: string): Option<ObjectKey> {
    if ValidKey(s) then Some(s) else None
  }

  /** Content-addressed key of a chunk or page object below `base`. */
  function PartKey(base: ObjectKey, kind: string, digest: Digest): Option<ObjectKey> {
    ParseKey(base + ".parts/" + kind + "/" + digest[7..])
  }

  lemma {:induction false} SplitJoin(a: string, b: string, separator: char)
    ensures Split(a + [separator] + b, separator) == Split(a, separator) + Split(b, separator)
  {
    var whole := a + [separator] + b;
    if a == "" {
      assert whole[1..] == b && Split(a, separator) == [""];
    } else {
      assert whole[1..] == a[1..] + [separator] + b && whole[0] == a[0];
      SplitJoin(a[1..], b, separator);
    }
  }

  lemma {:induction false} SplitWhole(t: string, separator: char)
    requires separator !in t
    ensures Split(t, separator) == [t]
  {
    if t != "" {
      assert t[0] in t && forall c <- t[1..] :: c in t;
      SplitWhole(t[1..], separator);
      assert [t[0]] + t[1..] == t;
    }
  }

  /** Text without a separator only lengthens the last segment. */
  lemma {:induction false} SplitTail(a: string, t: string, separator: char)
    requires separator !in t
    ensures Split(a + t, separator) == Lengthened(Split(a, separator), t)
  {
    if a == "" {
      assert a + t == t;
      SplitWhole(t, separator);
    } else {
      assert (a + t)[1..] == a[1..] + t && (a + t)[0] == a[0];
      SplitTail(a[1..], t, separator);
      var rest, longer := Split(a[1..], separator), Split(a[1..] + t, separator);
      assert Split(a, separator) == if a[0] == separator then [""] + rest else [[a[0]] + rest[0]] + rest[1..];
      assert Split(a + t, separator) == if a[0] == separator then [""] + longer else [[a[0]] + longer[0]] + longer[1..];
      hide Split;
      if a[0] == separator { LaterSegment("", rest, t); } else { FirstSegment(a[0], rest, t); }
    }
  }

  /** The segments with text added to the last one. */
  function Lengthened(parts: seq<string>, t: string): (longer: seq<string>)
    requires parts != []
    ensures |longer| == |parts|
  {
    parts[..|parts| - 1] + [parts[|parts| - 1] + t]
  }

  lemma LaterSegment(first: string, rest: seq<string>, t: string)
    requires rest != []
    ensures Lengthened([first] + rest, t) == [first] + Lengthened(rest, t)
  {
  }

  lemma FirstSegment(c: char, rest: seq<string>, t: string)
    requires rest != []
    ensures var longer := Lengthened(rest, t);
            Lengthened([[c] + rest[0]] + rest[1..], t) == [[c] + longer[0]] + longer[1..]
  {
    if |rest| == 1 {
      assert [c] + (rest[0] + t) == [c] + rest[0] + t;
    } else {
      assert Lengthened(rest, t)[1..] == Lengthened(rest[1..], t);
      LaterSegment([c] + rest[0], rest[1..], t);
    }
  }

  /** A proper segment of a key. */
  predicate Segment(s: string) {
    s != "" && s != "." && s != ".." && forall c <- s :: ValidKeyChar(c) && c != '/'
  }

  lemma PartsOfPartKey(base: ObjectKey, kind: string, hex: string)
    requires Segment(kind) && Segment(hex)
    ensures forall part <- Split(base + ".parts" + "/" + kind + "/" + hex, '/') :: part != "" && part != "." && part != ".."
  {
    hide ValidKeyChar, Split;
    var parts, n := Split(base, '/'), |Split(base, '/')|;
    var last := parts[n - 1] + ".parts";
    SplitTail(base, ".parts", '/');
    SplitWhole(kind, '/');
    SplitWhole(hex, '/');
    SplitJoin(base + ".parts", kind, '/');
    SplitJoin(base + ".parts" + "/" + kind, hex, '/');
    var all := Split(base + ".parts" + "/" + kind + "/" + hex, '/');
    assert all == parts[..n - 1] + [last] + [kind] + [hex];
    forall part | part in all
      ensures part != "" && part != "." && part != ".."
    {
      assert part in parts[..n - 1] || part == last || part == kind || part == hex;
      assert part in parts[..n - 1] ==> part in parts;
    }
  }

  /** Whether a part below `base` can be named depends on the length of `base` alone. */
  lemma PartKeyIff(base: ObjectKey, kind: string, digest: Digest)
    requires Segment(kind)
    ensures PartKey(base, kind, digest).Some? <==> |base| + |kind| + 72 <= MAX_KEY_BYTES
  {
    var hex := digest[7..];
    forall c | c in hex
      ensures ValidKeyChar(c) && c != '/'
    {
      var i :| 0 <= i < |hex| && hex[i] == c;
      assert IsLowerHex(digest[i + 7]);
    }
    PartsOfPartKey(base, kind, hex);
    var key := base + ".parts/" + kind + "/" + hex;
    assert ".parts/" == ".parts" + "/";
    assert key == base + ".parts" + "/" + kind + "/" + hex;
    assert key[0] == base[0] && key[|key| - 1] == hex[63] && hex[63] in hex;
    PartKeyChars(base, kind, hex);
    hide ValidKeyChar, Split;
  }

  lemma PartKeyChars(base: ObjectKey, kind: string, hex: string)
    requires Segment(kind) && Segment(hex)
    ensures var key := base + ".parts/" + kind + "/" + hex; forall i :: 0 <= i < |key| ==> ValidKeyChar(key[i])
  {
    var key := base + ".parts/" + kind + "/" + hex;
    assert forall c <- ".parts/" :: ValidKeyChar(c);
    forall i | 0 <= i < |key|
      ensures ValidKeyChar(key[i])
    {
      assert key[i] in base || key[i] in ".parts/" || key[i] in kind || key[i] == '/' || key[i] in hex;
    }
  }

  /** Backend path of `key` in `context` for a store configured with `prefix`. */
  function Location(prefix: string, context: Digest, key: ObjectKey): string {
    var contextPath := "contexts/sha256=" + context[7..] + "/" + key;
    if prefix == "" then contextPath else prefix + "/" + contextPath
  }

  lemma SuffixInjective(p: string, q: string, s: string, t: string)
    requires p + s == q + t && |p| == |q|
    ensures p == q && s == t
  {
    assert p == (p + s)[..|p|] && q == (q + t)[..|q|];
    assert s == (p + s)[|p|..] && t == (q + t)[|q|..];
  }

  /** Objects of different contexts, or with different keys, never share a location. */
  lemma LocationInjective(prefix: string, c1: Digest, k1: ObjectKey, c2: Digest, k2: ObjectKey)
    requires Location(prefix, c1, k1) == Location(prefix, c2, k2)
    ensures c1 == c2 && k1 == k2
  {
    var head := if prefix == "" then "contexts/sha256=" else prefix + "/" + "contexts/sha256=";
    var r1, r2 := c1[7..] + ("/" + k1), c2[7..] + ("/" + k2);
    assert Location(prefix, c1, k1) == head + r1;
    assert Location(prefix, c2, k2) == head + r2;
    SuffixInjective(head, head, r1, r2);
    SuffixInjective(c1[7..], c2[7..], "/" + k1, "/" + k2);
    SuffixInjective("/", "/", k1, k2);
    assert c1 == c1[..7] + c1[7..] && c2 == c2[..7] + c2[7..];
  }

  /** A string that ends in `tail`. */
  predicate EndsWith(s: string, tail: string) {
    |s| >= |tail| && s[|s| - |tail|..] == tail
  }

  /** Where an object belongs: below the configured prefix, in the directory of its context, under its key. */
  predicate Placed(prefix: string, context: Digest, key: ObjectKey, location: string) {
    && (prefix == "" || prefix + "/" <= location)
    && EndsWith(location, "/sha256=" + context[7..] + "/" + key)
    && |location| == (if prefix == "" then 0 else |prefix| + 1) + |"contexts/sha256="| + 64 + 1 + |key|
  }

  lemma LocationPlaced(prefix: string, context: Digest, key: ObjectKey)
    ensures Placed(prefix, context, key, Location(prefix, context, key))
  {
    var l, tail := Location(prefix, context, key), "/sha256=" + context[7..] + "/" + key;
    var head := if prefix == "" then "contexts" else prefix + "/" + "contexts";
    assert "contexts/sha256=" == "contexts" + "/sha256=";
    assert l == head + tail;
    if prefix != "" { assert l[..|prefix| + 1] == prefix + "/"; }
  }

  /** Deployments whose prefixes do not continue one another have no location in common. */
  lemma PrefixesAreApart(p: string, q: string, location: string)
    requires p + "/" <= location && q + "/" <= location
    ensures p + "/" <= q + "/" || q + "/" <= p + "/"
  {
    var x, y := p + "/", q + "/";
    if |x| <= |y| {
      assert x == location[..|x|] == location[..|y|][..|x|] == y[..|x|];
    } else {
      assert y == location[..|y|] == location[..|x|][..|y|] == x[..|y|];
    }
  }

  /** A part lies below the key of its file, and names its kind and digest. */
  lemma PartKeyPlaced(base: ObjectKey, kind: string, digest: Digest)
    requires PartKey(base, kind, digest).Some?
    ensures var key := PartKey(base, kind, digest).value;
            base + ".parts/" <= key && EndsWith(key, "/" + kind + "/" + digest[7..])
            && |key| == |base| + 7 + |kind| + 1 + 64
  {
    var key := PartKey(base, kind, digest).value;
    assert key == base + ".parts" + ("/" + kind + "/" + digest[7..]);
    assert key[..|base| + 7] == base + ".parts/";
  }

  // ---------------------------------------------------------------- segments

  /** The segments with a separator between any two. */
  function Join(parts: seq<string>, separator: char): string
    requires parts != []
  {
    if |parts| == 1 then parts[0] else parts[0] + [separator] + Join(parts[1..], separator)
  }

  lemma {:induction false} JoinSplit(s: string, separator: char)
    ensures Join(Split(s, separator), separator) == s
    ensures forall part <- Split(s, separator) :: separator !in part && forall c <- part :: c in s
  {
    if s != "" {
      JoinSplit(s[1..], separator);
      var rest, parts := Split(s[1..], separator), Split(s, separator);
      assert s == [s[0]] + s[1..];
      if s[0] == separator {
        assert parts == [""] + rest && parts[1..] == rest;
      } else {
        assert parts == [[s[0]] + rest[0]] + rest[1..];
        assert parts[1..] == rest[1..];
        assert |rest| > 1 ==> Join(rest, separator) == rest[0] + [separator] + Join(rest[1..], separator);
      }
      forall part | part in parts
        ensures separator !in part && forall c <- part :: c in s
      {
        assert rest[0] in rest;
        assert part == "" || part in rest || part == [s[0]] + rest[0];
      }
    }
  }

  lemma {:induction false} SplitOfJoin(parts: seq<string>, separator: char)
    requires parts != [] && forall part <- parts :: separator !in part
    ensures Split(Join(parts, separator), separator) == parts
  {
    assert parts[0] in parts;
    SplitWhole(parts[0], separator);
    if |parts| > 1 {
      SplitOfJoin(parts[1..], separator);
      SplitJoin(parts[0], Join(parts[1..], separator), separator);
    }
  }

  /** A valid key is one or more proper segments joined by slashes, and not too long. */
  lemma ValidKeyIff(s: string)
    ensures ValidKey(s) <==>
            |s| <= 1024 && exists parts :: parts != [] && (forall part <- parts :: Segment(part)) && s == Join(parts, '/')
  {
    if ValidKey(s) {
      var parts := Split(s, '/');
      JoinSplit(s, '/');
      forall part | part in parts
        ensures Segment(part)
      {
        forall c | c in part
          ensures ValidKeyChar(c) && c != '/'
        {
          assert c in s;
        }
      }
    }
    forall parts: seq<string> | parts != [] && (forall part <- parts :: Segment(part)) && s == Join(parts, '/') && |s| <= MAX_KEY_BYTES
      ensures ValidKey(s)
    {
      SplitOfJoin(parts, '/');
      JoinedSegments(parts);
    }
  }

  lemma {:induction false} JoinedSegments(parts: seq<string>)
    requires parts != [] && forall part <- parts :: Segment(part)
    ensures var s := Join(parts, '/'); s != "" && s[0] != '/' && s[|s| - 1] != '/' && forall c <- s :: ValidKeyChar(c)
  {
    assert parts[0] in parts && parts[0][0] in parts[0] && parts[0][|parts[0]| - 1] in parts[0];
    if |parts| > 1 {
      JoinedSegments(parts[1..]);
      var s, rest := Join(parts, '/'), Join(parts[1..], '/');
      assert s == parts[0] + ['/'] + rest && s[|s| - 1] == rest[|rest| - 1];
    }
  }
}
