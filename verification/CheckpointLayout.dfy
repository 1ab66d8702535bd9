/** The built chain entry by entry: what stands at each position, and what each checkpoint records. */
module CheckpointLayout {
  import opened Prelude
  import opened Decimal
  import opened Encoding
  import opened Json
  import opened Chain
  import opened Checkpoint
  import CheckpointProofs
  import Merkle

  ghost predicate Pointed(digest: LinkDigest, entries: seq<Entry>, p: nat)
    requires 0 < p < |entries|
  {
    entries[p].Dict? && entries[p - 1].Dict? && Says(entries[p].fields, "prev", Hex(digest(entries[p - 1].fields - {"prev"})))
  }

  /** The data entry of number i at position p, and nothing else in it. */
  ghost predicate DataAt(digest: LinkDigest, entries: seq<Entry>, p: nat, i: nat)
    requires 0 < p < |entries|
  {
    && Pointed(digest, entries, p)
    && entries[p].fields - {"prev"} == map["i" := Int(i), "data" := Str("entry-" + DigitsOf(i)), "seq" := Int(p)]
  }

  /** The link digests of a stretch of entries. */
  ghost function Links(digest: LinkDigest, entries: seq<Entry>, from: nat, to: nat): seq<Digest>
    requires from <= to <= |entries| && forall k | from <= k < to :: entries[k].Dict?
  {
    seq<Digest>(to - from, k requires 0 <= k < to - from => digest(entries[from + k].fields - {"prev"}))
  }

  /** A checkpoint over the entries from start up to its own position p, and nothing else in it. */
  ghost predicate CheckpointAt(sha: Hash, digest: LinkDigest, entries: seq<Entry>, p: nat, start: nat)
    requires 0 < start < p < |entries|
  {
    && Pointed(digest, entries, p) && (forall k | start <= k < p :: entries[k].Dict?)
    && entries[p].fields - {"prev"} == map[
         "type" := Str("checkpoint"), "window_start" := Int(start), "window_end" := Int(p - 1), "count" := Int(p - start),
         "merkle_root" := Str(Hex(Merkle.Root(sha, Links(digest, entries, start, p)))), "seq" := Int(p)]
  }

  /** In rounds of `interval` data entries and the checkpoint over them. */
  ghost predicate Placed(sha: Hash, digest: LinkDigest, entries: seq<Entry>, p: nat, interval: nat)
    requires interval > 0 && 0 < p < |entries|
  {
    if p % (interval + 1) == 0 then p > interval && CheckpointAt(sha, digest, entries, p, p - interval)
    else DataAt(digest, entries, p, p - 1 - p / (interval + 1))
  }

  ghost predicate Laid(sha: Hash, digest: LinkDigest, entries: seq<Entry>, interval: nat)
    requires interval > 0
  {
    forall p | 0 < p < |entries| :: Placed(sha, digest, entries, p, interval)
  }

  lemma Grows(sha: Hash, digest: LinkDigest, entries: seq<Entry>, rec: Entry, interval: nat)
    requires interval > 0 && entries != [] && Laid(sha, digest, entries, interval)
    requires Placed(sha, digest, entries + [rec], |entries|, interval)
    ensures Laid(sha, digest, entries + [rec], interval)
  {
    hide Placed;
    forall p | 0 < p < |entries| ensures Placed(sha, digest, entries + [rec], p, interval) {
      Stays(sha, digest, entries, rec, p, interval);
    }
  }

  lemma Stays(sha: Hash, digest: LinkDigest, entries: seq<Entry>, rec: Entry, p: nat, interval: nat)
    requires interval > 0 && 0 < p < |entries| && Placed(sha, digest, entries, p, interval)
    ensures Placed(sha, digest, entries + [rec], p, interval)
  {
    hide Says, Merkle.Root;
    var all := entries + [rec];
    assert all[p] == entries[p] && all[p - 1] == entries[p - 1];
    if p % (interval + 1) == 0 {
      assert forall k | p - interval <= k < p :: all[k] == entries[k];
      assert Links(digest, all, p - interval, p) == Links(digest, entries, p - interval, p);
    }
  }

  /** Position and number of the next data entry: q whole rounds and r further entries are behind it. */
  lemma Rounds(q: nat, r: nat, interval: nat)
    requires r < interval
    ensures var p := 1 + q * (interval + 1) + r;
      && p % (interval + 1) == r + 1 && p / (interval + 1) == q
      && p - 1 - p / (interval + 1) == q * interval + r
    ensures r + 1 == interval ==> (2 + q * (interval + 1) + r) % (interval + 1) == 0
  {
    var b := interval + 1;
    Divides(q, r + 1, b);
    assert q * b == q * interval + q;
    if r + 1 == interval {
      Divides(q + 1, 0, b);
      assert (q + 1) * b == q * b + b;
    }
  }

  lemma Divides(q: nat, r: nat, b: nat)
    requires r < b
    ensures (q * b + r) % b == r && (q * b + r) / b == q
  {
    CheckpointProofs.QuotientUnique(q * b + r, b, q, r);
    var n := q * b + r;
    assert (n / b) * b + r == n;
    assert (n / b - q) * b == 0;
  }

  lemma DataLinked(digest: LinkDigest, entries: seq<Entry>, i: nat)
    requires entries != [] && entries[|entries| - 1].Dict?
    ensures DataAt(digest, entries + [Linked(digest, entries[|entries| - 1], |entries| - 1, DataRecord(i))], |entries|, i)
  {
    var rec := Linked(digest, entries[|entries| - 1], |entries| - 1, DataRecord(i));
    assert rec.fields - {"prev"} == map["i" := Int(i), "data" := Str("entry-" + DigitsOf(i)), "seq" := Int(|entries|)];
  }

  /** A linked checkpoint, field by field. */
  lemma CheckpointRecords(sha: Hash, digest: LinkDigest, window: seq<Entry>, last: Entry, n: int, start: int)
    requires window != [] && SeqOf(window[0]) == Some(start) && SeqOf(window[|window| - 1]) == Some(n)
    ensures Linked(digest, last, n, MakeCheckpoint(sha, digest, window)).fields - {"prev"} == map[
      "type" := Str("checkpoint"), "window_start" := Int(start), "window_end" := Int(n), "count" := Int(|window|),
      "merkle_root" := Str(Hex(Merkle.Root(sha, Leaves(digest, window)))), "seq" := Int(n + 1)]
  {
    hide Merkle.Root, Leaves, LinkOf, SeqOf, Hex;
  }

  lemma CheckpointLinked(sha: Hash, digest: LinkDigest, entries: seq<Entry>, start: nat)
    requires Numbered(entries) && 0 < start < |entries| && forall k | start <= k < |entries| :: entries[k].Dict?
    ensures CheckpointAt(sha, digest,
              entries + [Linked(digest, entries[|entries| - 1], |entries| - 1, MakeCheckpoint(sha, digest, entries[start..]))],
              |entries|, start)
  {
    var n, window := |entries|, entries[start..];
    assert window[0] == entries[start] && window[|window| - 1] == entries[n - 1];
    assert SeqOf(window[0]) == Some(start) && SeqOf(window[|window| - 1]) == Some(n - 1);
    hide MakeCheckpoint, Merkle.Root, Hex, Pointed, Links, Leaves, SeqOf, Numbered;
    var record := MakeCheckpoint(sha, digest, window);
    var rec := Linked(digest, entries[n - 1], n - 1, record);
    LeavesAreLinks(digest, entries, rec, start);
    CheckpointRecords(sha, digest, window, entries[n - 1], n - 1, start);
    PointsBack(digest, entries, record);
    assert rec.Dict?;
    hide *;
    CheckpointFromParts(sha, digest, entries, rec, start);
  }

  lemma CheckpointFromParts(sha: Hash, digest: LinkDigest, entries: seq<Entry>, rec: Entry, start: nat)
    requires 0 < start < |entries| && rec.Dict? && Pointed(digest, entries + [rec], |entries|)
    requires (forall k | start <= k < |entries| :: entries[k].Dict?) && forall k | start <= k < |entries| :: (entries + [rec])[k].Dict?
    requires Leaves(digest, entries[start..]) == Links(digest, entries + [rec], start, |entries|)
    requires rec.fields - {"prev"} == map[
      "type" := Str("checkpoint"), "window_start" := Int(start), "window_end" := Int(|entries| - 1),
      "count" := Int(|entries[start..]|),
      "merkle_root" := Str(Hex(Merkle.Root(sha, Leaves(digest, entries[start..])))), "seq" := Int(|entries| - 1 + 1)]
    ensures CheckpointAt(sha, digest, entries + [rec], |entries|, start)
  {
    hide Merkle.Root, Hex, Leaves, Links, Pointed;
    assert (entries + [rec])[|entries|] == rec;
  }

  lemma LeavesAreLinks(digest: LinkDigest, entries: seq<Entry>, rec: Entry, start: nat)
    requires start < |entries| && forall k | start <= k < |entries| :: entries[k].Dict?
    ensures forall k | start <= k < |entries| :: (entries + [rec])[k].Dict?
    ensures Leaves(digest, entries[start..]) == Links(digest, entries + [rec], start, |entries|)
  {
    var window, all := entries[start..], entries + [rec];
    forall k | 0 <= k < |window| ensures window[k] == all[start + k] && LinkOf(window[k]) == all[start + k].fields - {"prev"} {
    }
  }

  lemma PointsBack(digest: LinkDigest, entries: seq<Entry>, record: Link)
    requires entries != [] && entries[|entries| - 1].Dict?
    ensures Pointed(digest, entries + [Linked(digest, entries[|entries| - 1], |entries| - 1, record)], |entries|)
  {
    hide Hex;
  }

  /** The chain after q rounds and r further entries. */
  ghost predicate Round(sha: Hash, digest: LinkDigest, b: Build, q: nat, r: nat, interval: nat)
    requires interval > 0
  {
    && b.Ok() && |b.entries| == 1 + q * (interval + 1) + r && |b.window| == r && b.entries[0].Dict?
    && Laid(sha, digest, b.entries, interval)
  }

  lemma PlacedIsDict(sha: Hash, digest: LinkDigest, entries: seq<Entry>, p: nat, interval: nat)
    requires interval > 0 && 0 < p < |entries| && Placed(sha, digest, entries, p, interval)
    ensures entries[p].Dict?
  {
    hide Says, Merkle.Root;
  }

  lemma Dicts(sha: Hash, digest: LinkDigest, entries: seq<Entry>, interval: nat)
    requires interval > 0 && Laid(sha, digest, entries, interval)
    ensures forall p | 0 < p < |entries| :: entries[p].Dict?
  {
    hide Placed;
    forall p | 0 < p < |entries| ensures entries[p].Dict? {
      PlacedIsDict(sha, digest, entries, p, interval);
    }
  }

  lemma DataPlaced(sha: Hash, digest: LinkDigest, entries: seq<Entry>, q: nat, r: nat, interval: nat)
    requires r < interval && |entries| == 1 + q * (interval + 1) + r && entries[|entries| - 1].Dict?
    ensures var rec := Linked(digest, entries[|entries| - 1], |entries| - 1, DataRecord(q * interval + r));
      Placed(sha, digest, entries + [rec], |entries|, interval)
  {
    hide DataAt, CheckpointAt, Linked, DataRecord;
    Rounds(q, r, interval);
    DataLinked(digest, entries, q * interval + r);
  }

  lemma DataRound(sha: Hash, digest: LinkDigest, b: Build, q: nat, r: nat, interval: nat)
    requires r < interval && Round(sha, digest, b, q, r, interval)
    ensures var c := AddData(digest, b, DataRecord(q * interval + r));
      && c.Ok() && |c.entries| == 2 + q * (interval + 1) + r && |c.window| == r + 1 && c.entries[0] == b.entries[0]
      && Laid(sha, digest, c.entries, interval)
  {
    assert b.Ok();
    assert Laid(sha, digest, b.entries, interval) && |b.entries| == 1 + q * (interval + 1) + r && b.entries[0].Dict?;
    assert |b.window| == r;
    hide Placed, Laid, Linked, DataRecord, Numbered;
    var n := |b.entries|;
    Dicts(sha, digest, b.entries, interval);
    DataPlaced(sha, digest, b.entries, q, r, interval);
    Grows(sha, digest, b.entries, Linked(digest, b.entries[n - 1], n - 1, DataRecord(q * interval + r)), interval);
  }

  lemma OpenRound(sha: Hash, digest: LinkDigest, b: Build, q: nat, r: nat, interval: nat)
    requires r + 1 < interval && Round(sha, digest, b, q, r, interval)
    ensures Round(sha, digest, Step(sha, digest, b, q * interval + r, false), q, r + 1, interval)
  {
    DataRound(sha, digest, b, q, r, interval);
    hide Laid, Linked, MakeCheckpoint, DataRecord;
  }

  lemma {:induction false} BuiltRound(sha: Hash, digest: LinkDigest, run: string, plan: string, n: nat, q: nat, r: nat, interval: nat)
    requires r < interval && n == q * interval + r
    ensures Round(sha, digest, Built(sha, digest, run, plan, n, Every(interval)), q, r, interval)
    decreases n
  {
    hide Round, Step, Start;
    if n == 0 {
      NoEntries(sha, digest, run, plan, q, interval);
    } else if r > 0 {
      BuiltRound(sha, digest, run, plan, n - 1, q, r - 1, interval);
      Divides(q, r, interval);
      OpenRound(sha, digest, Built(sha, digest, run, plan, n - 1, Every(interval)), q, r - 1, interval);
    } else {
      assert q > 0 && (q - 1) * interval + interval == n;
      BuiltRound(sha, digest, run, plan, n - 1, q - 1, interval - 1, interval);
      Divides(q, 0, interval);
      CheckpointRound(sha, digest, Built(sha, digest, run, plan, n - 1, Every(interval)), q - 1, interval);
    }
  }

  lemma NoEntries(sha: Hash, digest: LinkDigest, run: string, plan: string, q: nat, interval: nat)
    requires interval > 0 && q * interval == 0
    ensures q == 0 && Round(sha, digest, Start(run, plan), 0, 0, interval)
  {
  }

  lemma CheckpointRound(sha: Hash, digest: LinkDigest, b: Build, q: nat, interval: nat)
    requires interval > 0 && Round(sha, digest, b, q, interval - 1, interval)
    ensures Round(sha, digest, Step(sha, digest, b, q * interval + interval - 1, true), q + 1, 0, interval)
  {
    DataRound(sha, digest, b, q, interval - 1, interval);
    hide Laid, Linked, MakeCheckpoint, DataRecord;
    CloseRound(sha, digest, AddData(digest, b, DataRecord(q * interval + interval - 1)), q, interval);
    assert (q + 1) * (interval + 1) == q * (interval + 1) + interval + 1;
  }

  lemma CheckpointPlaced(sha: Hash, digest: LinkDigest, entries: seq<Entry>, q: nat, interval: nat)
    requires interval > 0 && |entries| == 1 + q * (interval + 1) + interval && Numbered(entries)
    requires forall k | 0 < k < |entries| :: entries[k].Dict?
    ensures |entries| > interval
    ensures SeqOf(entries[|entries| - interval]).Some? && SeqOf(entries[|entries| - 1]).Some?
    ensures var window := entries[|entries| - interval..];
      var rec := Linked(digest, entries[|entries| - 1], |entries| - 1, MakeCheckpoint(sha, digest, window));
      Placed(sha, digest, entries + [rec], |entries|, interval)
  {
    hide CheckpointAt, DataAt, Linked, MakeCheckpoint;
    Rounds(q, interval - 1, interval);
    assert q * (interval + 1) >= 0;
    CheckpointLinked(sha, digest, entries, |entries| - interval);
  }

  lemma CloseRound(sha: Hash, digest: LinkDigest, c: Build, q: nat, interval: nat)
    requires interval > 0 && c.Ok() && |c.entries| == 1 + q * (interval + 1) + interval && |c.window| == interval
    requires c.entries[0].Dict? && Laid(sha, digest, c.entries, interval)
    ensures var d := AddCheckpoint(digest, c, MakeCheckpoint(sha, digest, c.window));
      d.Ok() && |d.entries| == |c.entries| + 1 && d.window == [] && d.entries[0].Dict? && Laid(sha, digest, d.entries, interval)
  {
    hide MakeCheckpoint, Linked, Placed, Laid;
    var n := |c.entries|;
    Dicts(sha, digest, c.entries, interval);
    CheckpointPlaced(sha, digest, c.entries, q, interval);
    Grows(sha, digest, c.entries, Linked(digest, c.entries[n - 1], n - 1, MakeCheckpoint(sha, digest, c.window)), interval);
  }

  /**
    For every length and interval: the built chain has 1 + n + n div size entries; the multiples of size + 1 are the
    checkpoints, each recording the bounds, the count and the root of the size entries before it; and between
    them stand the data entries in order.
   */
  lemma BuiltChainIs(sha: Hash, digest: LinkDigest, run: string, plan: string, n: nat, interval: int)
    requires interval != 0
    ensures var entries, size := Built(sha, digest, run, plan, n, Every(interval)).entries, Size(interval);
      && |entries| == 1 + n + n / size && Laid(sha, digest, entries, size)
      && entries[0] == Dict(map["type" := Str("genesis"), "schema" := Int(2), "seq" := Int(0), "run_id" := Str(run),
                                "plan_sha" := Str(plan), "prev" := Str(SixtyFourZeros())])
  {
    hide Laid, Built, Every, Genesis, SixtyFourZeros;
    var size := Size(interval);
    SameRemainders(interval);
    SizedChain(sha, digest, run, plan, n, size);
    SameSchedule(sha, digest, run, plan, n, Every(interval), Every(size));
    StartStays(sha, digest, run, plan, n, Every(interval));
    GenesisSpelled(run, plan);
  }

  lemma SizedChain(sha: Hash, digest: LinkDigest, run: string, plan: string, n: nat, size: nat)
    requires size > 0
    ensures var entries := Built(sha, digest, run, plan, n, Every(size)).entries;
      |entries| == 1 + n + n / size && Laid(sha, digest, entries, size)
  {
    hide Laid, Built, Every;
    var q, r := n / size, n % size;
    Quotient(n, size);
    BuiltRound(sha, digest, run, plan, n, q, r, size);
  }

  lemma Quotient(n: nat, size: nat)
    requires size > 0
    ensures n == n / size * size + n % size && 1 + n / size * (size + 1) + n % size == 1 + n + n / size
  {
    assert n / size * (size + 1) == n / size * size + n / size;
  }

  lemma GenesisSpelled(run: string, plan: string)
    ensures Genesis(run, plan) == Dict(map["type" := Str("genesis"), "schema" := Int(2), "seq" := Int(0), "run_id" := Str(run),
                                           "plan_sha" := Str(plan), "prev" := Str(SixtyFourZeros())])
  {
    ZeroIsZeros();
    hide Hex, ZeroDigest, SixtyFourZeros;
  }

  /** A negative interval counts like its size. */
  function Size(interval: int): nat
  {
    if interval < 0 then -interval else interval
  }

  lemma SameRemainders(interval: int)
    requires interval != 0
    ensures forall k: nat :: Every(interval)(k) == Every(Size(interval))(k)
  {
    if interval < 0 {
      forall k: nat ensures k % interval == k % -interval {
        var q := k / -interval;
        assert k == (-q) * interval + k % -interval;
        CheckpointProofs.QuotientUnique(k, interval, -q, k % -interval);
      }
    }
  }

  lemma {:induction false} SameSchedule(sha: Hash, digest: LinkDigest, run: string, plan: string, n: nat, due: Schedule, again: Schedule)
    requires forall k: nat :: due(k) == again(k)
    ensures Built(sha, digest, run, plan, n, due) == Built(sha, digest, run, plan, n, again)
  {
    hide Step;
    if n > 0 {
      SameSchedule(sha, digest, run, plan, n - 1, due, again);
    }
  }

  lemma {:induction false} StartStays(sha: Hash, digest: LinkDigest, run: string, plan: string, n: nat, due: Schedule)
    ensures Built(sha, digest, run, plan, n, due).entries[0] == Genesis(run, plan)
  {
    hide Step, Genesis;
    if n > 0 {
      StartStays(sha, digest, run, plan, n - 1, due);
      StepExtends(sha, digest, Built(sha, digest, run, plan, n - 1, due), n - 1, due(n));
    }
  }

  lemma StepExtends(sha: Hash, digest: LinkDigest, b: Build, i: nat, due: bool)
    requires b.Ok()
    ensures Step(sha, digest, b, i, due).entries[0] == b.entries[0]
  {
    hide Linked, MakeCheckpoint, DataRecord, Numbered;
  }
}
