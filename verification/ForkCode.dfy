/** write_rsrc and read_rsrc as the loops they are, proved against the layout
    and the reader of ResourceFork (provisioning/fat_cfm.py:31-81). */
module ForkCode {
  import opened Bytes
  import opened Layout
  import opened Grouping
  import opened ResourceFork
  import opened ForkRoundTrip

  /** The positions of a type among the first N. */
  function OfFirst(rs: seq<Resource>, n: nat, t: Kind): (at: seq<nat>)
    requires n <= |rs|
    ensures forall k :: 0 <= k < |at| ==> at[k] < |rs|
  {
    Of(Keys(rs)[..n], t)
  }

  /** What by_type holds under a type after the first N. */
  function Under(rs: seq<Resource>, n: nat, t: Kind): seq<Entry>
    requires n <= |rs|
  {
    Pick(Entries(rs), OfFirst(rs, n, t))
  }

  ghost predicate Collected(rs: seq<Resource>, n: nat, types: seq<Kind>, byType: map<Kind, seq<Entry>>) {
    && n <= |rs|
    && types == Kinds(Keys(rs)[..n])
    && (forall t: Kind :: t in byType <==> t in types)
    && (forall t: Kind :: t in byType ==> byType[t] == Under(rs, n, t))
  }

  /** The grouping loop: what is under each type, and the data section. */
  method Collect(rs: seq<Resource>) returns (types: seq<Kind>, byType: map<Kind, seq<Entry>>, data: seq<byte>)
    ensures Collected(rs, |rs|, types, byType) && data == Data(rs)
  {
    hide Collected, Flat;
    types, byType, data := [], map[], [];
    CollectedNone(rs);
    var i := 0;
    while i < |rs|
      invariant 0 <= i <= |rs|
      invariant Collected(rs, i, types, byType) && data == Flat<byte>(DataParts(rs)[..i])
    {
      var r := rs[i];
      var entry := Entry(r, |data|);
      CollectedNext(rs, i, types, byType);
      if r.kind in byType {
        byType := byType[r.kind := byType[r.kind] + [entry]];
      } else {
        types := types + [r.kind];
        byType := byType[r.kind := [entry]];
      }
      data := data + (Be32(|r.data|) + r.data);
      i := i + 1;
    }
    assert DataParts(rs)[..i] == DataParts(rs);
  }

  lemma CollectedNone(rs: seq<Resource>)
    ensures Collected(rs, 0, [], map[]) && Flat<byte>(DataParts(rs)[..0]) == []
  {
  }

  lemma CollectedNext(rs: seq<Resource>, i: nat, types: seq<Kind>, byType: map<Kind, seq<Entry>>)
    requires i < |rs| && Collected(rs, i, types, byType)
    ensures var t, entry := rs[i].kind, Entry(rs[i], |Flat<byte>(DataParts(rs)[..i])|);
            if t in byType then Collected(rs, i + 1, types, byType[t := byType[t] + [entry]])
            else Collected(rs, i + 1, types + [t], byType[t := [entry]])
    ensures Flat<byte>(DataParts(rs)[..i + 1]) == Flat<byte>(DataParts(rs)[..i]) + DataPart(rs[i])
  {
    hide Kinds, OfFirst, DataParts, Flat;
    CollectStep(rs, i);
    var t, entry := rs[i].kind, Entry(rs[i], |Flat<byte>(DataParts(rs)[..i])|);
    forall u: Kind
      ensures Under(rs, i + 1, u) == Under(rs, i, u) + if u == t then [entry] else []
    {
    }
    assert t !in byType ==> Under(rs, i, t) == [];
  }

  lemma CollectStep(rs: seq<Resource>, i: nat)
    requires i < |rs|
    ensures forall t :: OfFirst(rs, i + 1, t) == OfFirst(rs, i, t) + if rs[i].kind == t then [i] else []
    ensures Kinds(Keys(rs)[..i + 1]) ==
            Kinds(Keys(rs)[..i]) + if rs[i].kind in Keys(rs)[..i] then [] else [rs[i].kind]
    ensures Flat<byte>(DataParts(rs)[..i + 1]) == Flat<byte>(DataParts(rs)[..i]) + DataPart(rs[i])
    ensures rs[i].kind !in Keys(rs)[..i] ==> OfFirst(rs, i, rs[i].kind) == []
  {
    hide Kinds, Of, Flat;
    var keys, key := Keys(rs)[..i], rs[i].kind;
    assert Keys(rs)[..i + 1] == keys + [key];
    KindsGrow(keys, key);
    OfSame(keys, key);
    OfNone(keys, key);
    forall t | t != key
      ensures OfFirst(rs, i + 1, t) == OfFirst(rs, i, t)
    {
      OfOther(keys, key, t);
    }
    FlatNext<byte>(DataParts(rs), i);
  }

  lemma UnderAt(rs: seq<Resource>, j: nat, c: nat)
    requires j < |Kinds(Keys(rs))| && c <= |Under(rs, |rs|, Kinds(Keys(rs))[j])|
    ensures var under, k := Under(rs, |rs|, Kinds(Keys(rs))[j]), Start<nat>(Groups(Keys(rs)), j) + c;
            && k <= |References(rs)|
            && (c < |under| ==> k < |References(rs)| && under[c] == References(rs)[k])
            && (c == |under| ==> k == Start<nat>(Groups(Keys(rs)), j + 1))
  {
    hide Kinds, Of, Flat, Entries;
    var keys, groups := Keys(rs), Groups(Keys(rs));
    assert keys[..|rs|] == keys;
    FlatPart<nat>(groups, j);
    var at := Start<nat>(groups, j);
    FlatNext<nat>(groups, j);
    if c < |groups[j]| {
      assert Order(keys)[at + c] == Order(keys)[at..at + |groups[j]|][c] == groups[j][c];
    }
  }

  lemma AddedNext(rs: seq<Resource>, k: nat, refs: seq<byte>, names: seq<byte>)
    requires AddedUpTo(rs, k, refs, names) && k < |References(rs)|
    ensures NameAt(References(rs), k) == if References(rs)[k].res.name.Some? then |names| else NO_NAME
    ensures var name := References(rs)[k].res.name;
            NamePacks(References(rs), k) ==>
              AddedUpTo(rs, k + 1, refs + RefPart(References(rs), k),
                        if name.None? then names else names + ([|name.value|] + name.value))
    ensures !NamePacks(References(rs), k) ==> !Packs(rs)
  {
    hide References, RefPart, Flat;
    var es := References(rs);
    assert names + [] == names;
    FlatNext<byte>(RefParts(es), k);
    FlatNext<byte>(NameParts(es), k);
  }

  /** The references of one type: ok is false where Python raises. */
  method AddReferences(ghost rs: seq<Resource>, ghost j: nat, entries: seq<Entry>, refs0: seq<byte>, names0: seq<byte>)
    returns (ok: bool, refs: seq<byte>, names: seq<byte>)
    requires j < |Kinds(Keys(rs))| && entries == Under(rs, |rs|, Kinds(Keys(rs))[j])
    requires AddedUpTo(rs, Start<nat>(Groups(Keys(rs)), j), refs0, names0)
    ensures ok ==> AddedUpTo(rs, Start<nat>(Groups(Keys(rs)), j + 1), refs, names)
    ensures !ok ==> !Packs(rs)
  {
    hide Kinds, Of, Flat, References, Under, Keys, Groups, AddedUpTo, Packs, NameAt;
    ghost var first := Start<nat>(Groups(Keys(rs)), j);
    ok, refs, names := true, refs0, names0;
    UnderAt(rs, j, 0);
    var c := 0;
    while c < |entries|
      invariant 0 <= c <= |entries| && first + c <= |References(rs)|
      invariant AddedUpTo(rs, first + c, refs, names)
    {
      var e := entries[c];
      UnderAt(rs, j, c);
      AddedNext(rs, first + c, refs, names);
      var nameOff := NO_NAME;
      if e.res.name.Some? {
        nameOff := |names|;
        if |e.res.name.value| > 0xFF || nameOff > 0xFFFF {
          ok := false;
          return;
        }
        names := names + ([|e.res.name.value|] + e.res.name.value);
      }
      refs := refs + (Be16(e.res.id) + Be16(nameOff) + Be32(AttrsAndOffset(e.res.attrs, e.off)) + Be32(0));
      UnderAt(rs, j, c + 1);
      c := c + 1;
    }
    UnderAt(rs, j, c);
  }

  /** References and names are those of the first K references, which all pack. */
  ghost predicate AddedUpTo(rs: seq<Resource>, k: nat, refs: seq<byte>, names: seq<byte>) {
    var es := References(rs);
    && k <= |es|
    && refs == Flat<byte>(RefParts(es)[..k]) && names == Flat<byte>(NameParts(es)[..k])
    && (forall i :: 0 <= i < k ==> NamePacks(es, i))
  }

  lemma AddedAll(rs: seq<Resource>, refs: seq<byte>, names: seq<byte>)
    requires AddedUpTo(rs, Start<nat>(Groups(Keys(rs)), |Kinds(Keys(rs))|), refs, names)
    ensures refs == Flat<byte>(RefParts(References(rs))) && names == Names(rs)
    ensures Packs(rs) <==>
            && rs != [] && NamesAt(rs) <= 0xFFFF && DATA_AT + |Data(rs)| < 0x1_0000_0000
            && NamesAt(rs) + |names| < 0x1_0000_0000
  {
    hide References, Flat, RefPart, NamePart, MapBody, NamePacks;
    FlatAll<nat>(Groups(Keys(rs)));
    SameLength(rs);
    FlatAll<byte>(RefParts(References(rs)));
    FlatAll<byte>(NameParts(References(rs)));
  }

  /** write_rsrc: the fork, or None where a number does not fit its field. */
  method WriteRsrc(rs: seq<Resource>) returns (fork: Option<seq<byte>>)
    ensures fork == if Packs(rs) then Some(Fork(rs)) else None
  {
    hide Kinds, Of, Flat, References, Keys, Groups, AddedUpTo, Packs, Data, Names, KindPart, Fork, MapBody, Be16, Be32;
    var types, byType, data := Collect(rs);
    if types == [] {
      NothingToWrite(rs);
      return None;
    }
    NothingToWrite(rs);
    var typeList, refs, names := Be16(|types| - 1), [], [];
    var refBase := 2 + 8 * |types|;
    AddedNone(rs);
    var j := 0;
    while j < |types|
      invariant 0 <= j <= |types|
      invariant typeList == Be16(|types| - 1) + Flat<byte>(KindParts(Keys(rs))[..j])
      invariant AddedUpTo(rs, Start<nat>(Groups(Keys(rs)), j), refs, names)
    {
      var entries := byType[types[j]];
      TypeWidths(rs, j, refs, names);
      if |entries| > 0x1_0000 || refBase + |refs| > 0xFFFF {
        return None;
      }
      typeList := typeList + (types[j] + Be16(|entries| - 1) + Be16(refBase + |refs|));
      var ok;
      ok, refs, names := AddReferences(rs, j, entries, refs, names);
      if !ok {
        return None;
      }
      j := j + 1;
    }
    AddedAll(rs, refs, names);
    var mapBody := typeList + refs;
    var typesAt, namesAt := 28, 28 + |mapBody|;
    WholeBody(rs, typeList, refs);
    if namesAt > 0xFFFF || DATA_AT + |data| >= 0x1_0000_0000 || namesAt + |names| >= 0x1_0000_0000 {
      return None;
    }
    Assembled(rs);
    var head := Be32(DATA_AT) + Be32(DATA_AT + |data|) + Be32(|data|) + Be32(namesAt + |names|);
    var rmap := head + Zeros(6) + Be16(0) + Be16(typesAt) + Be16(namesAt) + mapBody + names;
    fork := Some(head + Zeros(DATA_AT - 16) + data + rmap);
  }

  lemma Assembled(rs: seq<Resource>)
    ensures var d, b, n := Data(rs), MapBody(rs), Names(rs);
            var head := Be32(DATA_AT) + Be32(DATA_AT + |d|) + Be32(|d|) + Be32(28 + |b| + |n|);
            Fork(rs) == head + Zeros(DATA_AT - 16) + d + (head + Zeros(6) + Be16(0) + Be16(28) + Be16(28 + |b|) + b + n)
  {
    hide Data, MapBody, Names, Be16, Be32;
  }

  lemma NothingToWrite(rs: seq<Resource>)
    ensures Kinds(Keys(rs)) == [] <==> rs == []
    ensures Packs(rs) ==> rs != []
    ensures Keys(rs)[..|rs|] == Keys(rs)
  {
    if rs != [] {
      assert Keys(rs)[0] in Kinds(Keys(rs));
    }
  }

  lemma AddedNone(rs: seq<Resource>)
    ensures AddedUpTo(rs, Start<nat>(Groups(Keys(rs)), 0), [], [])
    ensures Flat<byte>(KindParts(Keys(rs))[..0]) == []
  {
    hide References;
    StartZero(Groups(Keys(rs)));
  }

  /** The numbers in a type's entry of the map, and what they must fit. */
  lemma TypeWidths(rs: seq<Resource>, j: nat, refs: seq<byte>, names: seq<byte>)
    requires j < |Kinds(Keys(rs))| && AddedUpTo(rs, Start<nat>(Groups(Keys(rs)), j), refs, names)
    ensures var n, t := |Under(rs, |rs|, Kinds(Keys(rs))[j])|, Kinds(Keys(rs))[j];
            var at := 2 + 8 * |Kinds(Keys(rs))| + |refs|;
            && (n > 0x1_0000 || at > 0xFFFF ==> !Packs(rs))
            && KindPart(Keys(rs), j) == t + Be16(n - 1) + Be16(at)
            && Flat<byte>(KindParts(Keys(rs))[..j + 1]) == Flat<byte>(KindParts(Keys(rs))[..j]) + KindPart(Keys(rs), j)
  {
    hide Kinds, Of, Flat, References, Packs, NamePacks, Be16;
    assert Keys(rs)[..|rs|] == Keys(rs);
    Wide(rs, j, Start<nat>(Groups(Keys(rs)), j));
    if Packs(rs) {
      KindFits(rs, j);
    }
    FlatNext<byte>(KindParts(Keys(rs)), j);
  }

  lemma WholeBody(rs: seq<Resource>, typeList: seq<byte>, refs: seq<byte>)
    requires refs == Flat<byte>(RefParts(References(rs)))
    requires typeList == Be16(|Kinds(Keys(rs))| - 1) + Flat<byte>(KindParts(Keys(rs))[..|Kinds(Keys(rs))|])
    ensures typeList + refs == MapBody(rs)
  {
    hide Kinds, References, Flat, KindPart, RefPart;
    FlatAll<byte>(KindParts(Keys(rs)));
  }

  /** read_rsrc: the resources, or None where the fork ends too soon. */
  method ReadRsrc(fork: seq<byte>) returns (out: Option<seq<Resource>>)
    ensures out == ReadFork(fork)
  {
    hide Get16, Get32, Slice, ReadRefs;
    if |fork| < 16 {
      return Some([]);
    }
    var dataAt: nat, mapAt: nat, size: nat := Get32(fork, 0), Get32(fork, 4), Get32(fork, 12);
    var m := Slice(fork, mapAt, mapAt + size);
    if |m| < 28 {
      return None;
    }
    var v := View(fork, m, dataAt, Get16(m, 24), Get16(m, 26));
    if v.typesAt + 2 > |m| {
      return None;
    }
    var list: seq<Resource> := [];
    var n: nat := Get16(m, v.typesAt) as nat + 1;
    var t := 0;
    while t < n
      invariant 0 <= t <= n
      invariant ReadKinds(v, t) == Some(list)
    {
      var at := v.typesAt + 2 + 8 * t;
      if at + 8 > |m| {
        ReadKindsStops(v, t + 1, n);
        return None;
      }
      var count: nat, ref: nat := Get16(m, at + 4), Get16(m, at + 6);
      var group := ReadGroup(v, m[at..at + 4], v.typesAt + ref, count + 1);
      if group.None? {
        ReadKindsStops(v, t + 1, n);
        return None;
      }
      list := list + group.value;
      t := t + 1;
    }
    out := Some(list);
  }

  /** The references of one type. */
  method ReadGroup(v: View, kind: Kind, at: nat, n: nat) returns (out: Option<seq<Resource>>)
    ensures out == ReadRefs(v, kind, at, n)
  {
    hide ReadRef;
    var list: seq<Resource> := [];
    var r := 0;
    while r < n
      invariant 0 <= r <= n
      invariant ReadRefs(v, kind, at, r) == Some(list)
    {
      var one := ReadRef(v, kind, at + 12 * r);
      if one.None? {
        ReadRefsStop(v, kind, at, r + 1, n);
        return None;
      }
      list := list + [one.value];
      r := r + 1;
    }
    out := Some(list);
  }

  lemma {:induction false} ReadKindsStops(v: View, n: nat, last: nat)
    requires n <= last && ReadKinds(v, n).None?
    ensures ReadKinds(v, last).None?
  {
    hide ReadRefs, Get16;
    if n < last {
      ReadKindsStops(v, n, last - 1);
    }
  }

  lemma {:induction false} ReadRefsStop(v: View, kind: Kind, at: nat, n: nat, last: nat)
    requires n <= last && ReadRefs(v, kind, at, n).None?
    ensures ReadRefs(v, kind, at, last).None?
  {
    hide ReadRef;
    if n < last {
      ReadRefsStop(v, kind, at, n, last - 1);
    }
  }
}
