/** What a record reads back as from the ledger file: json.dumps sorts the members of every dict by key. */
module StoredForm {
  import opened Json

  /** Python's order of strings, by code points. */
  predicate CodeLess(s: string, t: string)
  {
    if t == "" then false
    else if s == "" then true
    else s[0] < t[0] || (s[0] == t[0] && CodeLess(s[1..], t[1..]))
  }

  function SortByCode(members: seq<Member>): seq<Member>
  {
    if members == [] then [] else InsertByCode(members[0], SortByCode(members[1..]))
  }

  function InsertByCode(m: Member, sorted: seq<Member>): seq<Member>
  {
    if sorted == [] || !CodeLess(sorted[0].key, m.key) then [m] + sorted
    else [sorted[0]] + InsertByCode(m, sorted[1..])
  }

  /** json.loads(json.dumps(v, sort_keys=True)) */
  function Stored(v: Json): Json
    decreases v
  {
    match v
    case Arr(items) => Arr(seq(|items|, i requires 0 <= i < |items| => Stored(items[i])))
    case Obj(members) =>
      Obj(SortByCode(seq(|members|, i requires 0 <= i < |members| => Member(members[i].key, Stored(members[i].value)))))
    case _ => v
  }

  function StoredItems(items: seq<Json>): seq<Json>
  {
    seq(|items|, i requires 0 <= i < |items| => Stored(items[i]))
  }

  function StoredMembers(members: seq<Member>): seq<Member>
  {
    seq(|members|, i requires 0 <= i < |members| => Member(members[i].key, Stored(members[i].value)))
  }

  lemma StoredDict(members: seq<Member>)
    ensures Stored(Obj(members)) == Obj(SortByCode(StoredMembers(members)))
  {
    assert StoredMembers(members)
        == seq(|members|, i requires 0 <= i < |members| => Member(members[i].key, Stored(members[i].value)));
  }

  lemma StoredList(items: seq<Json>)
    ensures Stored(Arr(items)) == Arr(StoredItems(items))
  {
    assert StoredItems(items) == seq(|items|, i requires 0 <= i < |items| => Stored(items[i]));
  }

  lemma {:induction false} SortByCodeKeeps(members: seq<Member>)
    ensures |SortByCode(members)| == |members|
    ensures forall m :: m in SortByCode(members) <==> m in members
    ensures DistinctKeys(members) ==> DistinctKeys(SortByCode(members))
  {
    if members != [] {
      SortByCodeKeeps(members[1..]);
      InsertByCodeKeeps(members[0], SortByCode(members[1..]));
      if DistinctKeys(members) {
        forall x | x in SortByCode(members[1..]) ensures x.key != members[0].key {
          assert x in members[1..];
        }
      }
    }
  }

  lemma {:induction false} InsertByCodeKeeps(m: Member, sorted: seq<Member>)
    ensures |InsertByCode(m, sorted)| == |sorted| + 1
    ensures forall x :: x in InsertByCode(m, sorted) <==> x == m || x in sorted
    ensures DistinctKeys(sorted) && (forall x | x in sorted :: x.key != m.key) ==> DistinctKeys(InsertByCode(m, sorted))
  {
    if sorted != [] && CodeLess(sorted[0].key, m.key) {
      var rest := sorted[1..];
      InsertByCodeKeeps(m, rest);
      if DistinctKeys(sorted) && forall x | x in sorted :: x.key != m.key {
        forall x | x in InsertByCode(m, rest) ensures x.key != sorted[0].key {
          assert x == m || x in rest;
        }
      }
    }
  }

  // ----- records

  /** A dict of plain JSON values: no NaN, no infinity. */
  ghost predicate Storable(record: map<string, Json>)
  {
    forall k | k in record :: WellFormed(record[k]) && Serializable(record[k])
  }

  function StoredRecord(record: map<string, Json>): map<string, Json>
  {
    map k | k in record :: Stored(record[k])
  }
}
