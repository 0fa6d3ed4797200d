/** Reserved headers: what collecting them finds, whatever their order. */
module HeaderProofs {
  import opened Common
  import opened Attestation

  // ------------------------------------------------------------------- names

  /** The reserved names have different lengths, so no name is another one in different case. */
  lemma NameLengths(a: Slot, b: Slot)
    ensures |Name(a)| == |Name(b)| ==> a == b
  {
  }

  lemma NamesAreHeaderNames(s: Slot)
    ensures 0 < |Name(s)| <= MAX_HEADER_NAME_BYTES && forall c <- Name(s) :: IsHeaderChar(c)
  {
  }

  lemma FindReservedMeaning(name: string, s: Slot)
    ensures FindReserved(name) == Some(s) <==> EqualIgnoringCase(name, Name(s))
  {
    forall a: Slot, b: Slot | EqualIgnoringCase(name, Name(a)) && EqualIgnoringCase(name, Name(b))
      ensures a == b
    {
      NameLengths(a, b);
    }
    hide Name;
  }

  lemma ReservedFound(s: Slot)
    ensures FindReserved(Name(s)) == Some(s)
  {
    FindReservedMeaning(Name(s), s);
    hide Name;
  }

  lemma SameLowerCase(a: string, b: string)
    requires (forall c <- a :: IsHeaderChar(c)) && (forall c <- b :: IsHeaderChar(c))
    ensures EqualIgnoringCase(a, b) <==> a == b
  {
    if EqualIgnoringCase(a, b) {
      forall i | 0 <= i < |a|
        ensures a[i] == b[i]
      {
        assert a[i] in a && b[i] in b;
      }
    }
  }

  /** A lower-case name that resembles a reserved one is that one. */
  lemma LowerCaseName(name: string)
    requires forall c <- name :: IsHeaderChar(c)
    ensures FindReserved(name).Some? ==> name == Name(FindReserved(name).value)
    ensures FindReserved(name).Some? <==> IsReserved(name)
  {
    hide Name, EqualIgnoringCase, FindReserved, IsHeaderChar;
    forall s: Slot
      ensures EqualIgnoringCase(name, Name(s)) <==> name == Name(s)
      ensures FindReserved(name) == Some(s) <==> EqualIgnoringCase(name, Name(s))
    {
      NamesAreHeaderNames(s);
      SameLowerCase(name, Name(s));
      FindReservedMeaning(name, s);
    }
  }

  // -------------------------------------------------------------- collection

  /** `m` holds exactly the reserved headers of `hs`; each is spelled exactly, has a value, and occurs once. */
  ghost predicate Gathered(hs: multiset<RawHeader>, m: map<Slot, Bytes>) {
    && (forall h <- hs :: FindReserved(h.name).Some? ==>
          var s := FindReserved(h.name).value;
          s in m && h == RawHeader(Name(s), Some(m[s])) && hs[h] == 1)
    && (forall s <- m :: RawHeader(Name(s), Some(m[s])) in hs)
  }

  lemma GatherOne(hs: multiset<RawHeader>, m: map<Slot, Bytes>, h: RawHeader)
    requires Gathered(hs, m) && CollectStep(m, h).Some?
    ensures Gathered(hs + multiset{h}, CollectStep(m, h).value)
  {
    hide FindReserved, Name;
    var all, next := hs + multiset{h}, CollectStep(m, h).value;
    if FindReserved(h.name).Some? { assert h !in hs; }
    forall g | g in all && FindReserved(g.name).Some?
      ensures var s := FindReserved(g.name).value; s in next && g == RawHeader(Name(s), Some(next[s])) && all[g] == 1
    {
      if g != h { assert g in hs; }
    }
  }

  lemma UngatherOne(hs: multiset<RawHeader>, h: RawHeader, m: map<Slot, Bytes>) returns (before: map<Slot, Bytes>)
    requires Gathered(hs + multiset{h}, m)
    ensures Gathered(hs, before) && CollectStep(before, h) == Some(m)
  {
    hide FindReserved, Name;
    var all := hs + multiset{h};
    assert h in all;
    before := if FindReserved(h.name).Some? then m - {FindReserved(h.name).value} else m;
    forall g | g in hs && FindReserved(g.name).Some?
      ensures var s := FindReserved(g.name).value; s in before && g == RawHeader(Name(s), Some(before[s])) && hs[g] == 1
    {
      assert g in all && all[g] == 1 && g != h;
    }
    forall s | s in before
      ensures RawHeader(Name(s), Some(before[s])) in hs
    {
      assert RawHeader(Name(s), Some(m[s])) in all;
      ReservedFound(s);
    }
    if FindReserved(h.name).Some? {
      var s := FindReserved(h.name).value;
      assert h == RawHeader(Name(s), Some(m[s])) && before[s := m[s]] == m;
    }
  }

  /** Collecting succeeds exactly on clean headers, and finds exactly the reserved ones. */
  lemma {:induction false} CollectMeaning(hs: seq<RawHeader>, m: map<Slot, Bytes>)
    ensures Collect(hs) == Some(m) <==> |hs| <= MAX_DURABLE_HEADERS && Gathered(multiset(hs), m)
  {
    hide Gathered, CollectStep;
    if hs == [] {
      GatherNothing(m);
    } else {
      var init, h := hs[..|hs| - 1], hs[|hs| - 1];
      assert hs == init + [h] && multiset(hs) == multiset(init) + multiset{h};
      if Collect(hs) == Some(m) {
        var before := Collect(init).value;
        CollectMeaning(init, before);
        GatherOne(multiset(init), before, h);
      }
      if |hs| <= MAX_DURABLE_HEADERS && Gathered(multiset(hs), m) {
        var before := UngatherOne(multiset(init), h, m);
        CollectMeaning(init, before);
      }
    }
  }

  lemma GatherNothing(m: map<Slot, Bytes>)
    ensures Gathered(multiset{}, m) <==> m == map[]
  {
    if m != map[] {
      assert exists s :: s in m;
    }
  }

  /** The order in which a broker delivers the headers does not matter. */
  lemma CollectIgnoresOrder(a: seq<RawHeader>, b: seq<RawHeader>)
    requires multiset(a) == multiset(b)
    ensures Collect(a) == Collect(b)
  {
    hide Gathered;
    assert |a| == |multiset(a)| == |multiset(b)| == |b|;
    if Collect(a).Some? {
      CollectMeaning(a, Collect(a).value);
      CollectMeaning(b, Collect(a).value);
    }
    if Collect(b).Some? {
      CollectMeaning(a, Collect(b).value);
      CollectMeaning(b, Collect(b).value);
    }
  }
}
