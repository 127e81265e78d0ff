/**
 * `normalize` of the publish route (routes/publish.js): the rewrite of the
 * field dictionary into the publication record. It runs three passes, each
 * over a fixed list of keys: lists move under `metadata`, empty optional
 * fields are dropped or filtered, and carriage returns leave the prose fields.
 */
module PublishNormalize {
  import opened Options
  import opened Sequences
  import opened PublishFields

  const MetadataKey := "metadata"
  const ArrayKeys: seq<string> := ["ussubjectmatter", "journals", "naturesubjects", "classifications"]
  const DeleteIfEmpty: seq<string> := ["name", "affiliation", "safety"]
  const NormalizeLines: seq<string> := ["finding", "safety"]

  /**
   * `v.length !== 0`: a string or an array of length zero fails it; a
   * metadata object has no `length`, and `undefined !== 0` holds.
   */
  predicate HasLength(v: Value) {
    match v
    case Str(s) => |s| != 0
    case Arr(xs) => |xs| != 0
    case Meta(_) => true
  }

  /** The value under a listed key is moved under `metadata`: present with non-zero length. */
  predicate Moves(o: Option<Value>) {
    o.Some? && HasLength(o.value)
  }

  predicate HasMetadata(r: Record) {
    MetadataKey in r && r[MetadataKey].Meta?
  }

  /** One step of the first pass: move `key` under `metadata` when present with non-zero length. */
  function MoveKey(r: Record, key: string): (r': Record)
    requires HasMetadata(r) && key != MetadataKey
    ensures HasMetadata(r')
    ensures Moves(Lookup(r, key)) ==> key !in r' && Lookup(r'[MetadataKey].entries, key) == Lookup(r, key)
    ensures !Moves(Lookup(r, key)) ==> r' == r
  {
    if key in r && HasLength(r[key]) then
      var list := r[key];
      (r - {key})[MetadataKey := Meta(r[MetadataKey].entries[key := list])]
    else r
  }

  /** The first pass over a prefix of its key list. */
  function MoveAll(r: Record, keys: seq<string>): (r': Record)
    requires HasMetadata(r) && MetadataKey !in keys
    ensures HasMetadata(r')
    decreases |keys|
  {
    if keys == [] then r
    else
      assert MetadataKey !in keys[..|keys| - 1];
      MoveKey(MoveAll(r, keys[..|keys| - 1]), keys[|keys| - 1])
  }

  /** One step of the second pass: filter `''` out of an array, delete an empty string. */
  function DropKey(r: Record, key: string): (r': Record)
    ensures Lookup(r', key) == DropValue(Lookup(r, key))
    ensures forall k :: k != key ==> Lookup(r', k) == Lookup(r, k)
  {
    if key in r && r[key].Arr? then r[key := Arr(Without(r[key].items, ""))]
    else if key in r && r[key] == Str("") then r - {key}
    else r
  }

  function DropAll(r: Record, keys: seq<string>): Record
    decreases |keys|
  {
    if keys == [] then r else DropKey(DropAll(r, keys[..|keys| - 1]), keys[|keys| - 1])
  }

  /** One step of the third pass: delete every carriage return from a string. */
  function StripKey(r: Record, key: string): (r': Record)
    ensures Lookup(r', key) == StripValue(Lookup(r, key))
    ensures forall k :: k != key ==> Lookup(r', k) == Lookup(r, k)
  {
    if key in r && r[key].Str? then r[key := Str(Without(r[key].text, '\r'))] else r
  }

  function StripAll(r: Record, keys: seq<string>): Record
    decreases |keys|
  {
    if keys == [] then r else StripKey(StripAll(r, keys[..|keys| - 1]), keys[|keys| - 1])
  }

  /** The record `normalize` leaves behind. */
  function Normalized(r: Record): Record {
    var reset := r[MetadataKey := Meta(map[])];
    StripAll(DropAll(MoveAll(reset, ArrayKeys), DeleteIfEmpty), NormalizeLines)
  }

  /** What the second pass does to the value under one of its keys. */
  function DropValue(o: Option<Value>): Option<Value> {
    match o
    case Some(Arr(xs)) => Some(Arr(Without(xs, "")))
    case Some(Str(s)) => if s == "" then None else o
    case _ => o
  }

  /** What the third pass does to the value under one of its keys. */
  function StripValue(o: Option<Value>): Option<Value> {
    match o
    case Some(Str(s)) => Some(Str(Without(s, '\r')))
    case _ => o
  }

  /** Two records that agree on every key are equal. */
  lemma SameEntries(a: Record, b: Record)
    requires forall k :: Lookup(a, k) == Lookup(b, k)
    ensures a == b
  {
    assert a.Keys == b.Keys by {
      forall k ensures k in a <==> k in b {
        assert Lookup(a, k) == Lookup(b, k);
      }
    }
    forall k | k in a ensures a[k] == b[k] {
      assert Lookup(a, k) == Lookup(b, k);
    }
  }

  /** The first pass, key by key: a listed key with a length moves; everything else stays. */
  lemma {:induction false} MoveAllAt(r: Record, keys: seq<string>, k: string)
    requires HasMetadata(r) && MetadataKey !in keys
    ensures k != MetadataKey ==> Lookup(MoveAll(r, keys), k) == (if k in keys && Moves(Lookup(r, k)) then None else Lookup(r, k))
    ensures Lookup(MoveAll(r, keys)[MetadataKey].entries, k)
         == (if k in keys && Moves(Lookup(r, k)) then Lookup(r, k) else Lookup(r[MetadataKey].entries, k))
    decreases |keys|
  {
    if keys != [] {
      var front, last := keys[..|keys| - 1], keys[|keys| - 1];
      assert keys == front + [last];
      assert MetadataKey !in front;
      MoveAllAt(r, front, k);
      assert k in keys <==> k in front || k == last;
    }
  }

  lemma DropValueIdempotent(o: Option<Value>)
    ensures DropValue(DropValue(o)) == DropValue(o)
  {
    match o
    case Some(Arr(xs)) => WithoutIdempotent(xs, "");
    case _ =>
  }

  lemma StripValueIdempotent(o: Option<Value>)
    ensures StripValue(StripValue(o)) == StripValue(o)
  {
    match o
    case Some(Str(s)) => WithoutIdempotent(s, '\r');
    case _ =>
  }

  /** The second pass, key by key. */
  lemma {:induction false} DropAllAt(r: Record, keys: seq<string>, k: string)
    ensures Lookup(DropAll(r, keys), k) == (if k in keys then DropValue(Lookup(r, k)) else Lookup(r, k))
    decreases |keys|
  {
    if keys != [] {
      var front, last := keys[..|keys| - 1], keys[|keys| - 1];
      assert keys == front + [last];
      DropAllAt(r, front, k);
      assert k in keys <==> k in front || k == last;
      if k == last && k in front {
        DropValueIdempotent(Lookup(r, k));
      }
    }
  }

  /** The third pass, key by key. */
  lemma {:induction false} StripAllAt(r: Record, keys: seq<string>, k: string)
    ensures Lookup(StripAll(r, keys), k) == (if k in keys then StripValue(Lookup(r, k)) else Lookup(r, k))
    decreases |keys|
  {
    if keys != [] {
      var front, last := keys[..|keys| - 1], keys[|keys| - 1];
      assert keys == front + [last];
      StripAllAt(r, front, k);
      assert k in keys <==> k in front || k == last;
      if k == last && k in front {
        StripValueIdempotent(Lookup(r, k));
      }
    }
  }

  /** The whole of `normalize`, key by key, for every key but `metadata`. */
  lemma NormalizedAt(r: Record, k: string)
    requires k != MetadataKey
    ensures Lookup(Normalized(r), k) ==
      var moved := if k in ArrayKeys && Moves(Lookup(r, k)) then None else Lookup(r, k);
      var dropped := if k in DeleteIfEmpty then DropValue(moved) else moved;
      if k in NormalizeLines then StripValue(dropped) else dropped
  {
    var reset := r[MetadataKey := Meta(map[])];
    var moved := MoveAll(reset, ArrayKeys);
    var dropped := DropAll(moved, DeleteIfEmpty);
    MoveAllAt(reset, ArrayKeys, k);
    DropAllAt(moved, DeleteIfEmpty, k);
    StripAllAt(dropped, NormalizeLines, k);
  }

  /**
   * After `normalize` the record has a `metadata` object that replaces any
   * earlier one and holds exactly the listed keys that were present with a
   * non-zero length, with their values unchanged.
   */
  lemma NormalizedMetadata(r: Record, k: string)
    ensures HasMetadata(Normalized(r))
    ensures Lookup(Normalized(r)[MetadataKey].entries, k) == (if k in ArrayKeys && Moves(Lookup(r, k)) then Lookup(r, k) else None)
  {
    var reset := r[MetadataKey := Meta(map[])];
    var moved := MoveAll(reset, ArrayKeys);
    var dropped := DropAll(moved, DeleteIfEmpty);
    DropAllAt(moved, DeleteIfEmpty, MetadataKey);
    StripAllAt(dropped, NormalizeLines, MetadataKey);
    assert Lookup(Normalized(r), MetadataKey) == Lookup(moved, MetadataKey);
    MoveAllAt(reset, ArrayKeys, k);
    if k != MetadataKey {
      assert Lookup(reset, k) == Lookup(r, k);
    }
  }

  /**
   * A listed key present with a non-zero length leaves the top level; one of
   * length zero stays where it was.
   */
  lemma NormalizeMovesLists(r: Record, k: string)
    requires k in ArrayKeys
    ensures Moves(Lookup(r, k)) ==> k !in Normalized(r)
    ensures !Moves(Lookup(r, k)) ==> Lookup(Normalized(r), k) == Lookup(r, k)
  {
    NormalizedAt(r, k);
  }

  /**
   * `name`, `affiliation` and `safety` disappear when they were the empty
   * string, and lose their `''` elements when they were arrays.
   */
  lemma NormalizeDropsEmpty(r: Record, k: string)
    requires k in DeleteIfEmpty
    ensures Lookup(r, k) == Some(Str("")) ==> k !in Normalized(r)
    ensures forall xs :: Lookup(r, k) == Some(Arr(xs)) ==> Lookup(Normalized(r), k) == Some(Arr(Without(xs, "")))
  {
    NormalizedAt(r, k);
  }

  /** A non-empty `finding` or `safety` string loses its carriage returns and nothing else. */
  lemma NormalizeStripsLines(r: Record, k: string, s: string)
    requires k in NormalizeLines && Lookup(r, k) == Some(Str(s)) && s != ""
    ensures Lookup(Normalized(r), k) == Some(Str(Without(s, '\r')))
  {
    NormalizedAt(r, k);
  }

  /** No string-valued `finding` or `safety` holds a carriage return after `normalize`. */
  lemma NormalizedHasNoCarriageReturn(r: Record, k: string)
    requires k in NormalizeLines && k in Normalized(r) && Normalized(r)[k].Str?
    ensures '\r' !in Normalized(r)[k].text
  {
    NormalizedAt(r, k);
  }

  /** Keys outside the three lists, other than `metadata`, are untouched. */
  lemma NormalizeLeavesOthers(r: Record, k: string)
    requires k != MetadataKey && k !in ArrayKeys && k !in DeleteIfEmpty && k !in NormalizeLines
    ensures Lookup(Normalized(r), k) == Lookup(r, k)
  {
    NormalizedAt(r, k);
  }

  /** The carriage-return pass applied twice is the pass applied once. */
  lemma StripLinesIdempotent(r: Record)
    ensures StripAll(StripAll(r, NormalizeLines), NormalizeLines) == StripAll(r, NormalizeLines)
  {
    forall k ensures Lookup(StripAll(StripAll(r, NormalizeLines), NormalizeLines), k) == Lookup(StripAll(r, NormalizeLines), k) {
      StripAllAt(r, NormalizeLines, k);
      StripAllAt(StripAll(r, NormalizeLines), NormalizeLines, k);
      StripValueIdempotent(Lookup(r, k));
    }
    SameEntries(StripAll(StripAll(r, NormalizeLines), NormalizeLines), StripAll(r, NormalizeLines));
  }

  /**
   * `normalize` must run exactly once: a second run resets `metadata` and the
   * lists the first run moved there are lost.
   */
  lemma NormalizeTwiceLosesLists()
    ensures var r := map["journals" := Str("Nature")];
      Normalized(Normalized(r)) != Normalized(r)
  {
    var r := map["journals" := Str("Nature")];
    NormalizedMetadata(r, "journals");
    NormalizedMetadata(Normalized(r), "journals");
    NormalizedAt(r, "journals");
  }
}
