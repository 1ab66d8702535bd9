/** What the ledger assumes of its codec can be met: a plain, unary encoding of stored records meets it. */
module CodecExists {
  import opened Prelude
  import opened Decimal
  import opened Binary64
  import opened Json
  import opened Chain
  import opened StoredForm
  import opened LedgerFile
  import opened DurableLedger

  /** n in unary: that many As and a B. */
  ghost function Unary(n: nat): Bytes
  {
    if n == 0 then [66] else [65] + Unary(n - 1)
  }

  ghost function Whole(n: int): Bytes
  {
    Unary(if n < 0 then 1 else 0) + Unary(if n < 0 then -n else n)
  }

  ghost function Chars(s: string): Bytes
  {
    if s == "" then Unary(0) else Unary(1 + s[0] as nat) + Chars(s[1..])
  }

  ghost function Float64(x: Double): Bytes
  {
    match x
    case NaN => Unary(0)
    case Infinite(neg) => Unary(if neg then 1 else 2)
    case Zero(neg) => Unary(if neg then 3 else 4)
    case Finite(neg, m) => Unary(if neg then 5 else 6) + (Whole(m.mant) + Whole(m.exp))
  }

  ghost function Encoded(v: Json): Bytes
    decreases v
  {
    match v
    case Null => Unary(0)
    case Bool(b) => Unary(if b then 1 else 2)
    case Int(n) => Unary(3) + Whole(n)
    case Float(x) => Unary(4) + Float64(x)
    case Str(s) => Unary(5) + Chars(s)
    case Arr(items) => Unary(6) + EncodedItems(v, items)
    case Obj(members) => Unary(7) + EncodedMembers(v, members)
  }

  ghost function EncodedItems(context: Json, items: seq<Json>): Bytes
    requires forall x | x in items :: x < context
    decreases context, |items|
  {
    if items == [] then Unary(0)
    else
      assert items[0] in items && forall x | x in items[1..] :: x in items;
      Unary(1) + (Encoded(items[0]) + EncodedItems(context, items[1..]))
  }

  ghost function EncodedMembers(context: Json, members: seq<Member>): Bytes
    requires forall m | m in members :: m.value < context
    decreases context, |members|
  {
    if members == [] then Unary(0)
    else
      assert members[0] in members && forall m | m in members[1..] :: m in members;
      Unary(1) + (Chars(members[0].key) + (Encoded(members[0].value) + EncodedMembers(context, members[1..])))
  }

  // ----- nothing is lost

  lemma {:induction false} UnaryReads(m: nat, r: Bytes, n: nat, s: Bytes)
    requires Unary(m) + r == Unary(n) + s
    ensures m == n && r == s
  {
    assert (Unary(m) + r)[0] == Unary(m)[0] && (Unary(n) + s)[0] == Unary(n)[0];
    if m == 0 || n == 0 {
      assert (Unary(m) + r)[1..] == r && (Unary(n) + s)[1..] == s;
    } else {
      assert (Unary(m) + r)[1..] == Unary(m - 1) + r && (Unary(n) + s)[1..] == Unary(n - 1) + s;
      UnaryReads(m - 1, r, n - 1, s);
    }
  }

  lemma Behind(a: Bytes, b: Bytes, c: Bytes)
    ensures a + b + c == a + (b + c)
  {
  }

  lemma WholeReads(m: int, r: Bytes, n: int, s: Bytes)
    requires Whole(m) + r == Whole(n) + s
    ensures m == n && r == s
  {
    hide Unary;
    var x, y := Unary(if m < 0 then -m else m), Unary(if n < 0 then -n else n);
    Behind(Unary(if m < 0 then 1 else 0), x, r);
    Behind(Unary(if n < 0 then 1 else 0), y, s);
    UnaryReads(if m < 0 then 1 else 0, x + r, if n < 0 then 1 else 0, y + s);
    UnaryReads(if m < 0 then -m else m, r, if n < 0 then -n else n, s);
  }

  lemma {:induction false} CharsRead(a: string, r: Bytes, b: string, s: Bytes)
    requires Chars(a) + r == Chars(b) + s
    ensures a == b && r == s
  {
    hide Unary;
    var m, x := if a == "" then 0 else 1 + a[0] as nat, if a == "" then [] else Chars(a[1..]);
    var n, y := if b == "" then 0 else 1 + b[0] as nat, if b == "" then [] else Chars(b[1..]);
    assert Chars(a) == Unary(m) + x && Chars(b) == Unary(n) + y;
    Behind(Unary(m), x, r);
    Behind(Unary(n), y, s);
    UnaryReads(m, x + r, n, y + s);
    assert [] + r == r && [] + s == s;
    if a != "" {
      CharsRead(a[1..], r, b[1..], s);
      assert a == [a[0]] + a[1..] && b == [b[0]] + b[1..];
    }
  }

  lemma FloatReads(x: Double, r: Bytes, y: Double, s: Bytes)
    requires Float64(x) + r == Float64(y) + s
    ensures x == y && r == s
  {
    hide Unary, Whole;
    var (m, a) := FloatParts(x);
    var (n, b) := FloatParts(y);
    Behind(Unary(m), a, r);
    Behind(Unary(n), b, s);
    UnaryReads(m, a + r, n, b + s);
    assert [] + r == r && [] + s == s;
    if x.Finite? {
      Behind(Whole(x.size.mant), Whole(x.size.exp), r);
      Behind(Whole(y.size.mant), Whole(y.size.exp), s);
      WholeReads(x.size.mant, Whole(x.size.exp) + r, y.size.mant, Whole(y.size.exp) + s);
      WholeReads(x.size.exp, r, y.size.exp, s);
    }
  }

  ghost function FloatParts(x: Double): (p: (nat, Bytes))
    ensures Float64(x) == Unary(p.0) + p.1
  {
    match x
    case NaN => assert Unary(0) == Unary(0) + []; (0, [])
    case Infinite(neg) => assert Unary(1) == Unary(1) + [] && Unary(2) == Unary(2) + []; (if neg then 1 else 2, [])
    case Zero(neg) => assert Unary(3) == Unary(3) + [] && Unary(4) == Unary(4) + []; (if neg then 3 else 4, [])
    case Finite(neg, m) => (if neg then 5 else 6, Whole(m.mant) + Whole(m.exp))
  }

  ghost function Parts(v: Json): (p: (nat, Bytes))
    ensures Encoded(v) == Unary(p.0) + p.1
  {
    match v
    case Null => assert Unary(0) == Unary(0) + []; (0, [])
    case Bool(b) => assert Unary(1) == Unary(1) + [] && Unary(2) == Unary(2) + []; (if b then 1 else 2, [])
    case Int(n) => (3, Whole(n))
    case Float(x) => (4, Float64(x))
    case Str(s) => (5, Chars(s))
    case Arr(items) => (6, EncodedItems(v, items))
    case Obj(members) => (7, EncodedMembers(v, members))
  }

  lemma {:induction false} EncodedReads(v: Json, r: Bytes, w: Json, s: Bytes)
    requires Encoded(v) + r == Encoded(w) + s
    ensures v == w && r == s
    decreases v
  {
    hide Unary, Whole, Chars, Float64, EncodedItems, EncodedMembers;
    var (m, a) := Parts(v);
    var (n, b) := Parts(w);
    Behind(Unary(m), a, r);
    Behind(Unary(n), b, s);
    UnaryReads(m, a + r, n, b + s);
    assert [] + r == r && [] + s == s;
    match v {
      case Int(i) => WholeReads(i, r, w.n, s);
      case Float(x) => FloatReads(x, r, w.x, s);
      case Str(t) => CharsRead(t, r, w.s, s);
      case Arr(items) => ItemsRead(v, items, r, w, w.items, s);
      case Obj(members) => MembersRead(v, members, r, w, w.members, s);
      case _ =>
    }
  }

  lemma {:induction false} ItemsRead(v: Json, xs: seq<Json>, r: Bytes, w: Json, ys: seq<Json>, s: Bytes)
    requires (forall x | x in xs :: x < v) && forall y | y in ys :: y < w
    requires EncodedItems(v, xs) + r == EncodedItems(w, ys) + s
    ensures xs == ys && r == s
    decreases v, |xs|
  {
    hide Unary, Encoded;
    assert xs != [] ==> forall x | x in xs[1..] :: x in xs;
    assert ys != [] ==> forall y | y in ys[1..] :: y in ys;
    var a := if xs == [] then [] else Encoded(xs[0]) + EncodedItems(v, xs[1..]);
    var b := if ys == [] then [] else Encoded(ys[0]) + EncodedItems(w, ys[1..]);
    var m, n := if xs == [] then 0 else 1, if ys == [] then 0 else 1;
    assert EncodedItems(v, xs) == Unary(m) + a && EncodedItems(w, ys) == Unary(n) + b;
    Behind(Unary(m), a, r);
    Behind(Unary(n), b, s);
    UnaryReads(m, a + r, n, b + s);
    assert [] + r == r && [] + s == s;
    if xs != [] {
      Behind(Encoded(xs[0]), EncodedItems(v, xs[1..]), r);
      Behind(Encoded(ys[0]), EncodedItems(w, ys[1..]), s);
      assert xs[0] in xs;
      EncodedReads(xs[0], EncodedItems(v, xs[1..]) + r, ys[0], EncodedItems(w, ys[1..]) + s);
      ItemsRead(v, xs[1..], r, w, ys[1..], s);
      assert xs == [xs[0]] + xs[1..] && ys == [ys[0]] + ys[1..];
    }
  }

  lemma {:induction false} MembersRead(v: Json, xs: seq<Member>, r: Bytes, w: Json, ys: seq<Member>, s: Bytes)
    requires (forall x | x in xs :: x.value < v) && forall y | y in ys :: y.value < w
    requires EncodedMembers(v, xs) + r == EncodedMembers(w, ys) + s
    ensures xs == ys && r == s
    decreases v, |xs|
  {
    hide Unary, Encoded, Chars;
    assert xs != [] ==> forall x | x in xs[1..] :: x in xs;
    assert ys != [] ==> forall y | y in ys[1..] :: y in ys;
    var a' := if xs == [] then [] else Encoded(xs[0].value) + EncodedMembers(v, xs[1..]);
    var b' := if ys == [] then [] else Encoded(ys[0].value) + EncodedMembers(w, ys[1..]);
    var a, b := if xs == [] then [] else Chars(xs[0].key) + a', if ys == [] then [] else Chars(ys[0].key) + b';
    var m, n := if xs == [] then 0 else 1, if ys == [] then 0 else 1;
    assert EncodedMembers(v, xs) == Unary(m) + a && EncodedMembers(w, ys) == Unary(n) + b;
    Behind(Unary(m), a, r);
    Behind(Unary(n), b, s);
    UnaryReads(m, a + r, n, b + s);
    assert [] + r == r && [] + s == s;
    if xs != [] {
      Behind(Chars(xs[0].key), a', r);
      Behind(Chars(ys[0].key), b', s);
      CharsRead(xs[0].key, a' + r, ys[0].key, b' + s);
      Behind(Encoded(xs[0].value), EncodedMembers(v, xs[1..]), r);
      Behind(Encoded(ys[0].value), EncodedMembers(w, ys[1..]), s);
      assert xs[0] in xs;
      EncodedReads(xs[0].value, EncodedMembers(v, xs[1..]) + r, ys[0].value, EncodedMembers(w, ys[1..]) + s);
      MembersRead(v, xs[1..], r, w, ys[1..], s);
      assert xs == [xs[0]] + xs[1..] && ys == [ys[0]] + ys[1..];
    }
  }

  // ----- letters only

  ghost predicate Letters(s: Bytes)
  {
    s != [] && forall i | 0 <= i < |s| :: s[i] == 65 || s[i] == 66
  }

  lemma {:induction false} UnaryLetters(n: nat)
    ensures Letters(Unary(n))
  {
    if n > 0 {
      UnaryLetters(n - 1);
    }
  }

  lemma BothLetters(a: Bytes, b: Bytes)
    requires Letters(a) && Letters(b)
    ensures Letters(a + b)
  {
  }

  lemma WholeLetters(n: int)
    ensures Letters(Whole(n))
  {
    hide Unary, Letters;
    UnaryLetters(if n < 0 then 1 else 0);
    UnaryLetters(if n < 0 then -n else n);
    BothLetters(Unary(if n < 0 then 1 else 0), Unary(if n < 0 then -n else n));
  }

  lemma {:induction false} CharsLetters(s: string)
    ensures Letters(Chars(s))
  {
    hide Unary, Letters;
    if s == "" {
      UnaryLetters(0);
    } else {
      UnaryLetters(1 + s[0] as nat);
      CharsLetters(s[1..]);
      BothLetters(Unary(1 + s[0] as nat), Chars(s[1..]));
    }
  }

  lemma {:induction false} EncodedLetters(v: Json)
    ensures Letters(Encoded(v))
    decreases v
  {
    hide Unary, Letters, Whole, Chars;
    var (m, a) := Parts(v);
    UnaryLetters(m);
    assert Unary(m) + [] == Unary(m);
    if a != [] {
      match v {
        case Int(n) => WholeLetters(n);
        case Float(x) => FloatLetters(x);
        case Str(s) => CharsLetters(s);
        case Arr(items) => ItemsLetters(v, items);
        case Obj(members) => MembersLetters(v, members);
        case _ =>
      }
      BothLetters(Unary(m), a);
    }
  }

  lemma FloatLetters(x: Double)
    ensures Letters(Float64(x))
  {
    hide Unary, Letters, Whole;
    var (m, a) := FloatParts(x);
    UnaryLetters(m);
    assert Unary(m) + [] == Unary(m);
    if x.Finite? {
      WholeLetters(x.size.mant);
      WholeLetters(x.size.exp);
      BothLetters(Whole(x.size.mant), Whole(x.size.exp));
      BothLetters(Unary(m), a);
    }
  }

  lemma {:induction false} ItemsLetters(v: Json, items: seq<Json>)
    requires forall x | x in items :: x < v
    ensures Letters(EncodedItems(v, items))
    decreases v, |items|
  {
    hide Unary, Letters, Encoded;
    UnaryLetters(0);
    UnaryLetters(1);
    if items != [] {
      assert items[0] in items && forall x | x in items[1..] :: x in items;
      EncodedLetters(items[0]);
      ItemsLetters(v, items[1..]);
      BothLetters(Encoded(items[0]), EncodedItems(v, items[1..]));
      BothLetters(Unary(1), Encoded(items[0]) + EncodedItems(v, items[1..]));
    }
  }

  lemma {:induction false} MembersLetters(v: Json, members: seq<Member>)
    requires forall m | m in members :: m.value < v
    ensures Letters(EncodedMembers(v, members))
    decreases v, |members|
  {
    hide Unary, Letters, Encoded, Chars;
    UnaryLetters(0);
    UnaryLetters(1);
    if members != [] {
      assert members[0] in members && forall m | m in members[1..] :: m in members;
      var more := Encoded(members[0].value) + EncodedMembers(v, members[1..]);
      CharsLetters(members[0].key);
      EncodedLetters(members[0].value);
      MembersLetters(v, members[1..]);
      BothLetters(Encoded(members[0].value), EncodedMembers(v, members[1..]));
      BothLetters(Chars(members[0].key), more);
      BothLetters(Unary(1), Chars(members[0].key) + more);
    }
  }

  // ----- records

  ghost predicate Lists(members: seq<Member>, l: Link)
  {
    && (forall k | k in l :: Member(k, l[k]) in members)
    && (forall m | m in members :: m.key in l && l[m.key] == m.value)
  }

  /** The members of a dict in some order that the dict determines. */
  ghost function Listed(l: Link): (members: seq<Member>)
    ensures Lists(members, l)
    decreases |l|
  {
    if l == map[] then []
    else
      var k :| k in l;
      var rest := l - {k};
      assert |rest.Keys| < |l.Keys| by { assert rest.Keys == l.Keys - {k}; }
      ListsMore(Listed(rest), l, k);
      [Member(k, l[k])] + Listed(rest)
  }

  lemma ListsMore(members: seq<Member>, l: Link, k: string)
    requires k in l && Lists(members, l - {k})
    ensures Lists([Member(k, l[k])] + members, l)
  {
    var all := [Member(k, l[k])] + members;
    forall j | j in l ensures Member(j, l[j]) in all {
      if j == k {
        assert all[0] == Member(k, l[k]);
      } else {
        assert Member(j, (l - {k})[j]) in members;
      }
    }
  }

  ghost function Dump(l: Link): Bytes
  {
    Encoded(Obj(Listed(StoredRecord(l))))
  }

  lemma DumpReads(l: Link, l': Link)
    requires Dump(l) == Dump(l')
    ensures StoredRecord(l) == StoredRecord(l')
  {
    hide Encoded, StoredRecord;
    var x, y := StoredRecord(l), StoredRecord(l');
    EncodedReads(Obj(Listed(x)), [], Obj(Listed(y)), []);
    assert forall k | k in x :: Member(k, x[k]) in Listed(y);
    assert forall k | k in y :: Member(k, y[k]) in Listed(x);
  }

  ghost function Load(b: Bytes): Option<Entry>
  {
    if exists l :: Dump(l) == b then
      var l :| Dump(l) == b;
      Some(Dict(StoredRecord(l)))
    else None
  }

  /** So there is a codec that the ledger can rely on, whatever the order in which nested dicts were built. */
  lemma FaithfulCodecExists() returns (codec: Codec)
    ensures codec.Faithful()
  {
    codec := Codec(l => Dump(l), b => Load(b));
    forall l: Link ensures codec.loads(codec.dumps(l)) == Some(Dict(StoredRecord(l)))
                           && NoNewline(codec.dumps(l)) && !Blank(codec.dumps(l))
    {
      LoadsDumped(l);
      EncodedLetters(Obj(Listed(StoredRecord(l))));
      LettersAreLine(Dump(l));
    }
  }

  /** And an environment for whole runs, with any digest that no link takes to the all-zero root. */
  lemma EnvironmentExists(digest: LinkDigest, run: string, plan: string) returns (w: World)
    requires run != "" && plan != "" && forall l: Link :: digest(l) != ZERO
    ensures w.Ok() && w.digest == digest && w.run == run && w.plan == plan
  {
    hide Codec.Faithful;
    var codec := FaithfulCodecExists();
    w := World(codec, digest, run, plan);
  }

  lemma LoadsDumped(l: Link)
    ensures Load(Dump(l)) == Some(Dict(StoredRecord(l)))
  {
    hide Dump, StoredRecord;
    forall l' | Dump(l') == Dump(l) ensures StoredRecord(l') == StoredRecord(l) {
      DumpReads(l', l);
    }
  }

  lemma LettersAreLine(s: Bytes)
    requires Letters(s)
    ensures NoNewline(s) && !Blank(s)
  {
    assert !Space(s[0]);
  }
}
