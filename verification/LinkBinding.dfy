/** The link digest of the current schema: SHA-256 over the canonical bytes of the link. */
module LinkBinding {
  import opened Prelude
  import opened Binary64
  import opened Encoding
  import opened Json
  import opened Canonical
  import opened ReadBack
  import opened CanonicalNumbers
  import opened CanonicalForm
  import opened StoredForm
  import opened Chain

  /** The dict of a link with its members in some insertion order. */
  ghost predicate Represents(link: Link, members: seq<Member>) {
    && Printable(Obj(members))
    && (forall k :: k in link <==> exists i :: 0 <= i < |members| && members[i].key == k)
    && (forall i | 0 <= i < |members| :: link[members[i].key] == members[i].value)
  }

  ghost predicate Plain(link: Link) {
    forall k | k in link :: Serializable(link[k])
  }

  /** What a link says, its floats read by num. */
  ghost function Content(num: Double -> real, link: Link): map<string, Value>
    requires Plain(link)
  {
    map k | k in link :: ValueOf(num, link[k])
  }

  lemma PrintableMembers(members: seq<Member>)
    requires Printable(Obj(members))
    ensures DistinctKeys(members) && forall m | m in members :: m.value < Obj(members) && Serializable(m.value)
  {
  }

  lemma RepresentsContent(num: Double -> real, link: Link, members: seq<Member>)
    requires Represents(link, members)
    ensures Plain(link) && ValueOf(num, Obj(members)) == VObj(Content(num, link))
  {
    hide WellFormed, Serializable;
    PrintableMembers(members);
    var v := Obj(members);
    forall k | k in link ensures Serializable(link[k]) {
      var i :| 0 <= i < |members| && members[i].key == k;
      assert link[members[i].key] == members[i].value;
    }
    MemberKeys(num, v, members);
    var values := MemberValues(num, v, members);
    forall k | k in values ensures k in link && values[k] == Content(num, link)[k] {
      var i :| 0 <= i < |members| && members[i].key == k;
    }
  }

  /** The major-2 digest: whatever the insertion order, SHA-256 of the canonical bytes of the link's dict. */
  ghost predicate IsCanonicalDigest(sha: Hash, repr: Repr, digest: LinkDigest) {
    forall link: Link, members: seq<Member> | Represents(link, members) ::
      digest(link) == sha(CanonicalBytes(repr, Obj(members)))
  }

  /** The dict of a link can be digested exactly if no NaN and no infinity is inside; else the ValueError comes up. */
  lemma DigestExists(repr: Repr, link: Link, members: seq<Member>)
    requires WellFormed(Obj(members))
    requires forall k :: k in link <==> exists i :: 0 <= i < |members| && members[i].key == k
    requires forall i | 0 <= i < |members| :: link[members[i].key] == members[i].value
    ensures Canonicalize(repr, Obj(members)).Some? <==> Plain(link)
  {
    CanonicalizeIff(repr, Obj(members));
    if Plain(link) {
      forall i | 0 <= i < |members| ensures Serializable(members[i].value) {
        assert members[i].key in link;
      }
    }
    if Serializable(Obj(members)) {
      forall k | k in link ensures Serializable(link[k]) {
        var i :| 0 <= i < |members| && members[i].key == k;
        assert link[members[i].key] == members[i].value;
      }
    }
  }

  ghost predicate ClearLink(repr: Repr, members: seq<Member>) {
    RoundTrips(repr) && ClearInts(repr, Obj(members))
  }

  /**
    Two links with one digest are written alike, and equal where their ints are unambiguous; or their canonical bytes
    collide.
   */
  lemma LinkDigestBinds(sha: Hash, repr: Repr, digest: LinkDigest, x: Link, xm: seq<Member>, y: Link, ym: seq<Member>)
    requires IsCanonicalDigest(sha, repr, digest) && Represents(x, xm) && Represents(y, ym) && digest(x) == digest(y)
    ensures Plain(x) && Plain(y)
    ensures || Collides(sha, {CanonicalBytes(repr, Obj(xm))}, {CanonicalBytes(repr, Obj(ym))})
            || (Content(Written(repr), x) == Content(Written(repr), y)
                && (ClearLink(repr, xm) && ClearLink(repr, ym) ==> Content(NumberOf, x) == Content(NumberOf, y)))
  {
    hide ClearInts, RoundTrips, WellFormed, Serializable, CanonicalBytes;
    RepresentsContent(Written(repr), x, xm);
    RepresentsContent(Written(repr), y, ym);
    RepresentsContent(NumberOf, x, xm);
    RepresentsContent(NumberOf, y, ym);
    DigestBinds(sha, repr, Obj(xm), Obj(ym));
  }

  // ----- insertion order

  /** Strictly ascending lists of the same members are the same list. */
  lemma {:induction false} AscendingUnique(xs: seq<Member>, ys: seq<Member>)
    requires Ascending(xs) && Ascending(ys) && forall m :: m in xs <==> m in ys
    ensures xs == ys
    decreases |xs|
  {
    hide KeyLess;
    assert (|xs| > 0 ==> xs[0] in xs) && (|ys| > 0 ==> ys[0] in ys);
    if xs != [] && ys != [] {
      SameFirst(xs, ys);
      NotAgain(xs);
      NotAgain(ys);
      assert forall m :: m in xs <==> m == xs[0] || m in xs[1..];
      assert forall m :: m in ys <==> m == ys[0] || m in ys[1..];
      AscendingUnique(xs[1..], ys[1..]);
    }
  }

  lemma SameFirst(xs: seq<Member>, ys: seq<Member>)
    requires Ascending(xs) && Ascending(ys) && (forall m :: m in xs <==> m in ys) && xs != [] && ys != []
    ensures xs[0] == ys[0]
  {
    hide KeyLess;
    assert xs[0] in ys && ys[0] in xs;
    var i :| 0 <= i < |ys| && ys[i] == xs[0];
    var j :| 0 <= j < |xs| && xs[j] == ys[0];
    KeyLessBothWays(xs[0].key, ys[0].key);
  }

  lemma KeyLessBothWays(s: string, t: string)
    ensures !(KeyLess(s, t) && KeyLess(t, s))
  {
    if s == t {
      LessIrreflexive(Utf16(s));
    } else {
      KeyLessTotal(s, t);
    }
  }

  lemma NotAgain(xs: seq<Member>)
    requires Ascending(xs) && xs != []
    ensures xs[0] !in xs[1..]
  {
    hide KeyLess;
    KeyLessBothWays(xs[0].key, xs[0].key);
  }

  lemma {:induction false} MembersTextAnyContext(repr: Repr, a: Json, b: Json, members: seq<Member>)
    requires forall m | m in members :: m.value < a && m.value < b && Printable(m.value)
    ensures MembersText(repr, a, members) == MembersText(repr, b, members)
    decreases |members|
  {
    if members != [] {
      assert forall m | m in members[1..] :: m in members;
      MembersTextAnyContext(repr, a, b, members[1..]);
    }
  }

  /** The order in which members were inserted never shows in the text, for dicts of any printable values. */
  lemma InsertionOrderNeverShows(repr: Repr, xs: seq<Member>, ys: seq<Member>)
    requires Printable(Obj(xs)) && Printable(Obj(ys)) && forall m :: m in xs <==> m in ys
    ensures Text(repr, Obj(xs)) == Text(repr, Obj(ys))
  {
    SortKeeps(xs);
    SortKeeps(ys);
    SortAscends(xs);
    SortAscends(ys);
    AscendingUnique(SortMembers(xs), SortMembers(ys));
    SortedParts(xs);
    SortedParts(ys);
    MembersTextAnyContext(repr, Obj(xs), Obj(ys), SortMembers(xs));
  }

  /** A dict is written with its members in ascending order of their keys. */
  lemma WrittenAscending(repr: Repr, members: seq<Member>, sorted: seq<Member>)
    requires Printable(Obj(members)) && Ascending(sorted) && forall m :: m in sorted <==> m in members
    ensures forall m | m in sorted :: m.value < Obj(members) && Printable(m.value)
    ensures Text(repr, Obj(members)) == "{" + MembersText(repr, Obj(members), sorted) + "}"
  {
    SortKeeps(members);
    SortAscends(members);
    AscendingUnique(SortMembers(members), sorted);
    SortedParts(members);
  }

  /** So the digest of a link does not depend on how its dict was built. */
  lemma LinkTextIsUnique(repr: Repr, link: Link, xm: seq<Member>, ym: seq<Member>)
    requires Represents(link, xm) && Represents(link, ym)
    ensures CanonicalBytes(repr, Obj(xm)) == CanonicalBytes(repr, Obj(ym))
  {
    SameMembersOfLink(link, xm, ym);
    SameMembersOfLink(link, ym, xm);
    InsertionOrderNeverShows(repr, xm, ym);
  }

  lemma SameMembersOfLink(link: Link, xm: seq<Member>, ym: seq<Member>)
    requires Represents(link, xm) && Represents(link, ym)
    ensures forall m | m in xm :: m in ym
  {
    hide Printable;
    forall m | m in xm ensures m in ym {
      var i :| 0 <= i < |xm| && xm[i] == m;
      assert m.key in link;
      var j :| 0 <= j < |ym| && ym[j].key == m.key;
      assert ym[j].value == link[m.key] == m.value;
      assert ym[j] == m;
    }
  }

  // ----- the stored form

  /** Sorting by the UTF-16 key looks at keys only. */
  lemma {:induction false} SortStored(members: seq<Member>)
    ensures SortMembers(StoredMembers(members)) == StoredMembers(SortMembers(members))
  {
    hide KeyLess, Stored;
    if members != [] {
      SortStored(members[1..]);
      assert StoredMembers(members)[1..] == StoredMembers(members[1..]);
      InsertStored(members[0], SortMembers(members[1..]));
    } else {
      assert StoredMembers(members) == [];
    }
  }

  lemma {:induction false} InsertStored(m: Member, sorted: seq<Member>)
    ensures InsertMember(Member(m.key, Stored(m.value)), StoredMembers(sorted)) == StoredMembers(InsertMember(m, sorted))
  {
    hide KeyLess, Stored;
    var m' := Member(m.key, Stored(m.value));
    if sorted != [] && KeyLess(sorted[0].key, m.key) {
      InsertStored(m, sorted[1..]);
      assert StoredMembers(sorted)[1..] == StoredMembers(sorted[1..]);
      StoredFirst(sorted[0], InsertMember(m, sorted[1..]));
    } else {
      StoredFirst(m, sorted);
    }
  }

  lemma StoredFirst(m: Member, rest: seq<Member>)
    ensures StoredMembers([m] + rest) == [Member(m.key, Stored(m.value))] + StoredMembers(rest)
  {
  }

  /** Reading a value back from the ledger file does not change its canonical text. */
  lemma {:induction false} StoredText(repr: Repr, v: Json)
    requires Printable(v)
    ensures Printable(Stored(v)) && Text(repr, Stored(v)) == Text(repr, v)
    decreases v
  {
    match v {
      case Arr(items) =>
        StoredList(items);
        forall i | 0 <= i < |items| ensures Printable(Stored(items[i])) && Text(repr, Stored(items[i])) == Text(repr, items[i]) {
          StoredText(repr, items[i]);
        }
        StoredItemsText(repr, v, items, Stored(v), StoredItems(items));
      case Obj(members) =>
        forall i | 0 <= i < |members|
          ensures Printable(Stored(members[i].value)) && Text(repr, Stored(members[i].value)) == Text(repr, members[i].value)
        {
          StoredText(repr, members[i].value);
        }
        StoredDictText(repr, members);
      case _ =>
    }
  }

  lemma {:induction false} StoredItemsText(repr: Repr, a: Json, xs: seq<Json>, b: Json, ys: seq<Json>)
    requires (forall x | x in xs :: x < a && Printable(x)) && forall y | y in ys :: y < b && Printable(y)
    requires |xs| == |ys| && forall i | 0 <= i < |xs| :: Text(repr, ys[i]) == Text(repr, xs[i])
    ensures ItemsText(repr, b, ys) == ItemsText(repr, a, xs)
    decreases |xs|
  {
    hide Text, WellFormed, Serializable;
    if xs != [] {
      assert (forall x | x in xs[1..] :: x in xs) && (forall y | y in ys[1..] :: y in ys);
      StoredItemsText(repr, a, xs[1..], b, ys[1..]);
    }
  }

  lemma FirstMemberText(repr: Repr, context: Json, members: seq<Member>)
    requires members != [] && forall m | m in members :: m.value < context && Printable(m.value)
    ensures var first, rest := members[0], members[1..];
            && (forall m | m in rest :: m in members)
            && MembersText(repr, context, members)
               == Escaped(first.key) + ":" + Text(repr, first.value)
                + if |members| == 1 then "" else "," + MembersText(repr, context, rest)
  {
    hide Text, Printable, Escaped;
  }

  lemma {:induction false} StoredMembersText(repr: Repr, a: Json, xs: seq<Member>, b: Json, ys: seq<Member>)
    requires (forall x | x in xs :: x.value < a && Printable(x.value)) && forall y | y in ys :: y.value < b && Printable(y.value)
    requires |xs| == |ys|
    requires forall i | 0 <= i < |xs| :: ys[i].key == xs[i].key && Text(repr, ys[i].value) == Text(repr, xs[i].value)
    ensures MembersText(repr, b, ys) == MembersText(repr, a, xs)
    decreases |xs|
  {
    if xs != [] {
      hide Text, Printable, Escaped, MembersText;
      FirstMemberText(repr, a, xs);
      FirstMemberText(repr, b, ys);
      StoredMembersText(repr, a, xs[1..], b, ys[1..]);
    }
  }

  lemma StoredDictText(repr: Repr, members: seq<Member>)
    requires Printable(Obj(members))
    requires forall i | 0 <= i < |members| ::
      Printable(Stored(members[i].value)) && Text(repr, Stored(members[i].value)) == Text(repr, members[i].value)
    ensures Printable(Stored(Obj(members))) && Text(repr, Stored(Obj(members))) == Text(repr, Obj(members))
  {
    hide Text, Stored, KeyLess;
    var plain := StoredMembers(members);
    var sorted := SortByCode(plain);
    StoredDict(members);
    SortByCodeKeeps(plain);
    forall m | m in sorted ensures Printable(m.value) {
      assert m in plain;
    }
    assert Printable(Obj(plain)) && Printable(Obj(sorted));
    InsertionOrderNeverShows(repr, sorted, plain);
    SortStored(members);
    SortKeeps(members);
    SortedParts(members);
    SortedParts(plain);
    var xs, ys := SortMembers(members), SortMembers(plain);
    forall i | 0 <= i < |xs| ensures ys[i].key == xs[i].key && Text(repr, ys[i].value) == Text(repr, xs[i].value) {
      assert xs[i] in members;
    }
    StoredMembersText(repr, Obj(members), xs, Obj(plain), ys);
    DictText(repr, members);
    DictText(repr, plain);
  }

  lemma DictText(repr: Repr, members: seq<Member>)
    requires Printable(Obj(members))
    ensures forall m | m in SortMembers(members) :: m.value < Obj(members) && Printable(m.value)
    ensures Text(repr, Obj(members)) == "{" + MembersText(repr, Obj(members), SortMembers(members)) + "}"
  {
    SortedParts(members);
  }

  /** So the digest of an acknowledged record is the digest of what the ledger file gives back. */
  lemma StoredDigest(sha: Hash, repr: Repr, digest: LinkDigest, link: Link, members: seq<Member>)
    requires IsCanonicalDigest(sha, repr, digest) && Represents(link, members)
    ensures digest(StoredRecord(link)) == digest(link)
  {
    var stored := StoredMembers(members);
    forall i | 0 <= i < |members| ensures Printable(stored[i].value) && Text(repr, stored[i].value) == Text(repr, members[i].value) {
      StoredText(repr, members[i].value);
    }
    StoredDictText(repr, members);
    hide Text, Stored, WellFormed, Serializable;
    assert Represents(StoredRecord(link), SortByCode(stored)) by {
      StoredRepresents(link, members);
    }
    StoredDict(members);
  }

  lemma StoredRepresents(link: Link, members: seq<Member>)
    requires Represents(link, members) && Printable(Stored(Obj(members)))
    ensures Represents(StoredRecord(link), SortByCode(StoredMembers(members)))
  {
    hide Stored, WellFormed, Serializable;
    var stored := StoredMembers(members);
    var sorted := SortByCode(stored);
    StoredDict(members);
    SortByCodeKeeps(stored);
    forall i | 0 <= i < |sorted| ensures sorted[i].key in link && StoredRecord(link)[sorted[i].key] == sorted[i].value {
      assert sorted[i] in stored;
      var j :| 0 <= j < |stored| && stored[j] == sorted[i];
      assert members[j].key in link;
    }
    forall k | k in link ensures exists i :: 0 <= i < |sorted| && sorted[i].key == k {
      var j :| 0 <= j < |members| && members[j].key == k;
      assert stored[j] in sorted;
      var i :| 0 <= i < |sorted| && sorted[i] == stored[j];
    }
  }
}
