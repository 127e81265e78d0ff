/**
 * The `field` handler of the publish route (routes/publish.js): how the stream
 * of form fields coming out of the multipart parser is folded into the field
 * dictionary that later becomes the publication record.
 */
module PublishFields {
  import opened Options
  import opened Sequences

  /** A value in the field dictionary: a string, an array of strings, or the nested `metadata` object. */
  datatype Value = Str(text: string) | Arr(items: seq<string>) | Meta(entries: map<string, Value>)

  /** The field dictionary, and the record it becomes. */
  type Record = map<string, Value>

  /** The part of the server configuration the route reads: whether feedback is collected apart. */
  datatype Config = Config(feedbackEnabled: bool)

  /** What the multipart parser reports, in arrival order. */
  datatype Event =
    | Field(name: string, value: string)
    | File(field: string, filename: string, encoding: string, mimetype: string)

  /** A field named `x[]` contributes to the array stored under `x`. */
  predicate IsArrayName(name: string) {
    HasSuffix(name, "[]")
  }

  function ArrayKey(name: string): (key: string)
    requires IsArrayName(name)
    ensures name == key + "[]"
  {
    name[..|name| - 2]
  }

  /** A plain `feedback` field is kept apart from the record when feedback is collected. */
  predicate IsFeedback(config: Config, name: string) {
    config.feedbackEnabled && name == "feedback"
  }

  /** The dictionary after the `field` handler has seen `name = value`. */
  function StoreField(config: Config, fields: Record, name: string, value: string): (r: Record)
    ensures |value| == 0 ==> r == fields
    ensures IsFeedback(config, name) ==> r == fields
  {
    if |value| == 0 then fields
    else if IsArrayName(name) then
      var key := ArrayKey(name);
      if key in fields && fields[key].Arr? then fields[key := Arr(fields[key].items + [value])]
      else fields[key := Arr([value])]
    else if IsFeedback(config, name) then fields
    else fields[name := Str(value)]
  }

  /** The feedback text after the `field` handler has seen `name = value`. */
  function StoreFeedback(config: Config, feedback: Option<string>, name: string, value: string): (r: Option<string>)
    ensures |value| != 0 && IsFeedback(config, name) ==> r == Some(value)
    ensures r != feedback ==> IsFeedback(config, name) && r == Some(value) && value != ""
  {
    if |value| != 0 && !IsArrayName(name) && IsFeedback(config, name) then Some(value) else feedback
  }

  /** The dictionary after one parser event; file events leave it alone. */
  function Apply(config: Config, fields: Record, e: Event): Record {
    match e
    case Field(name, value) => StoreField(config, fields, name, value)
    case File(_, _, _, _) => fields
  }

  /** The dictionary after a whole stream of events. */
  function FieldsAfter(config: Config, fields: Record, events: seq<Event>): Record
    decreases |events|
  {
    if events == [] then fields
    else Apply(config, FieldsAfter(config, fields, events[..|events| - 1]), events[|events| - 1])
  }

  /** The feedback text after a whole stream of events. */
  function FeedbackAfter(config: Config, feedback: Option<string>, events: seq<Event>): Option<string>
    decreases |events|
  {
    if events == [] then feedback
    else
      var before := FeedbackAfter(config, feedback, events[..|events| - 1]);
      match events[|events| - 1]
      case Field(name, value) => StoreFeedback(config, before, name, value)
      case File(_, _, _, _) => before
  }

  /** The event stores a plain (last-wins) value under `key`. */
  predicate SetsPlain(config: Config, e: Event, key: string) {
    e.Field? && |e.value| != 0 && !IsArrayName(e.name) && !IsFeedback(config, e.name) && e.name == key
  }

  /** The event is a non-empty plain `feedback` field that the route keeps apart. */
  predicate SetsFeedback(config: Config, e: Event) {
    e.Field? && |e.value| != 0 && IsFeedback(config, e.name)
  }

  /** The event appends to the array under `key`. */
  predicate AppendsTo(e: Event, key: string) {
    e.Field? && |e.value| != 0 && IsArrayName(e.name) && ArrayKey(e.name) == key
  }

  predicate Touches(config: Config, e: Event, key: string) {
    SetsPlain(config, e, key) || AppendsTo(e, key)
  }

  /** The values of the `key[]` fields of a stream, in arrival order. */
  function ArrayValues(events: seq<Event>, key: string): seq<string> {
    if events == [] then []
    else (if AppendsTo(events[0], key) then [events[0].value] else []) + ArrayValues(events[1..], key)
  }

  /** The items already under `key` that a `key[]` field appends to. */
  function PriorItems(fields: Record, key: string): seq<string> {
    if key in fields && fields[key].Arr? then fields[key].items else []
  }

  lemma StoreFieldFrame(config: Config, fields: Record, name: string, value: string, key: string)
    requires !Touches(config, Field(name, value), key)
    ensures Lookup(StoreField(config, fields, name, value), key) == Lookup(fields, key)
  {
  }

  /** Folding a concatenated stream is folding its halves one after the other. */
  lemma {:induction false} FieldsAfterAppend(config: Config, fields: Record, a: seq<Event>, b: seq<Event>)
    ensures FieldsAfter(config, fields, a + b) == FieldsAfter(config, FieldsAfter(config, fields, a), b)
    decreases |b|
  {
    if b == [] {
      assert a + b == a;
    } else {
      assert (a + b)[..|a + b| - 1] == a + b[..|b| - 1];
      assert (a + b)[|a + b| - 1] == b[|b| - 1];
      FieldsAfterAppend(config, fields, a, b[..|b| - 1]);
    }
  }

  lemma {:induction false} ArrayValuesAppendOne(events: seq<Event>, e: Event, key: string)
    ensures ArrayValues(events + [e], key) == ArrayValues(events, key) + (if AppendsTo(e, key) then [e.value] else [])
  {
    if events == [] {
      assert events + [e] == [e];
      assert [e][1..] == [];
    } else {
      assert (events + [e])[0] == events[0];
      assert (events + [e])[1..] == events[1..] + [e];
      ArrayValuesAppendOne(events[1..], e, key);
    }
  }

  /** A key that no event of the stream touches keeps whatever it had (or keeps being absent). */
  lemma {:induction false} UntouchedKeyKept(config: Config, fields: Record, events: seq<Event>, key: string)
    requires forall i :: 0 <= i < |events| ==> !Touches(config, events[i], key)
    ensures Lookup(FieldsAfter(config, fields, events), key) == Lookup(fields, key)
    decreases |events|
  {
    if events != [] {
      var last := events[|events| - 1];
      UntouchedKeyKept(config, fields, events[..|events| - 1], key);
      if last.Field? {
        StoreFieldFrame(config, FieldsAfter(config, fields, events[..|events| - 1]), last.name, last.value, key);
      }
    }
  }

  /** A dictionary built from nothing holds only keys that some field of the stream stored. */
  lemma KeysComeFromFields(config: Config, events: seq<Event>, key: string)
    requires key in FieldsAfter(config, map[], events)
    ensures exists i :: 0 <= i < |events| && Touches(config, events[i], key)
  {
    if forall i :: 0 <= i < |events| ==> !Touches(config, events[i], key) {
      UntouchedKeyKept(config, map[], events, key);
    }
  }

  /**
   * Last wins: after a plain `key = v` field that no later field touches, the
   * dictionary holds `v` under `key`.
   */
  lemma LastPlainValueWins(config: Config, fields: Record, before: seq<Event>, key: string, v: string, after: seq<Event>)
    requires SetsPlain(config, Field(key, v), key)
    requires forall i :: 0 <= i < |after| ==> !Touches(config, after[i], key)
    ensures Lookup(FieldsAfter(config, fields, before + [Field(key, v)] + after), key) == Some(Str(v))
  {
    var upTo := before + [Field(key, v)];
    assert upTo[..|upTo| - 1] == before;
    FieldsAfterAppend(config, fields, upTo, after);
    UntouchedKeyKept(config, FieldsAfter(config, fields, upTo), after, key);
  }

  /** One event that does not overwrite `key` either appends its value to the array there or leaves `key` alone. */
  lemma ApplyAppends(config: Config, fields: Record, e: Event, key: string)
    requires !SetsPlain(config, e, key)
    ensures Lookup(Apply(config, fields, e), key)
         == if AppendsTo(e, key) then Some(Arr(PriorItems(fields, key) + [e.value])) else Lookup(fields, key)
  {
    if AppendsTo(e, key) {
      assert ArrayKey(e.name) == key;
      if !(key in fields && fields[key].Arr?) {
        assert PriorItems(fields, key) + [e.value] == [e.value];
      }
    } else if e.Field? {
      StoreFieldFrame(config, fields, e.name, e.value, key);
    }
  }

  /** A stream with no `key[]` value and no plain `key` field leaves `key` as it was. */
  lemma NoAppendsKeepKey(config: Config, fields: Record, events: seq<Event>, key: string)
    requires forall i :: 0 <= i < |events| ==> !SetsPlain(config, events[i], key)
    requires ArrayValues(events, key) == []
    ensures Lookup(FieldsAfter(config, fields, events), key) == Lookup(fields, key)
  {
    forall i | 0 <= i < |events| ensures !Touches(config, events[i], key) {
      if AppendsTo(events[i], key) {
        ArrayValuesHasAppend(events, key, i);
      }
    }
    UntouchedKeyKept(config, fields, events, key);
  }

  /** The step of `ArrayValuesAccumulate` whose event appends the first `key[]` value. */
  lemma FirstAppend(config: Config, fields: Record, rest: seq<Event>, last: Event, key: string)
    requires forall i :: 0 <= i < |rest| ==> !SetsPlain(config, rest[i], key)
    requires ArrayValues(rest, key) == [] && AppendsTo(last, key)
    ensures Lookup(Apply(config, FieldsAfter(config, fields, rest), last), key)
         == Some(Arr(PriorItems(fields, key) + ArrayValues(rest + [last], key)))
  {
    var before := FieldsAfter(config, fields, rest);
    NoAppendsKeepKey(config, fields, rest, key);
    assert PriorItems(before, key) == PriorItems(fields, key);
    ArrayValuesAppendOne(rest, last, key);
    assert ArrayValues(rest + [last], key) == [last.value];
    ApplyAppends(config, before, last, key);
  }

  /** A later step of `ArrayValuesAccumulate`: the event appends to, or leaves alone, the array built so far. */
  lemma NextAppend(config: Config, before: Record, rest: seq<Event>, last: Event, key: string, prior: seq<string>)
    requires Lookup(before, key) == Some(Arr(prior + ArrayValues(rest, key)))
    requires !SetsPlain(config, last, key)
    ensures Lookup(Apply(config, before, last), key) == Some(Arr(prior + ArrayValues(rest + [last], key)))
  {
    ArrayValuesAppendOne(rest, last, key);
    ApplyAppends(config, before, last, key);
    if AppendsTo(last, key) {
      assert prior + ArrayValues(rest, key) + [last.value] == prior + (ArrayValues(rest, key) + [last.value]);
    } else {
      assert ArrayValues(rest, key) + [] == ArrayValues(rest, key);
    }
  }

  /**
   * Arrays keep arrival order: when no plain field overwrites `key`, the
   * `key[]` values are appended, in order, to the array already under `key`
   * (a non-array value there is replaced by a fresh array).
   */
  lemma {:induction false} ArrayValuesAccumulate(config: Config, fields: Record, events: seq<Event>, key: string)
    requires forall i :: 0 <= i < |events| ==> !SetsPlain(config, events[i], key)
    requires ArrayValues(events, key) != []
    ensures Lookup(FieldsAfter(config, fields, events), key) == Some(Arr(PriorItems(fields, key) + ArrayValues(events, key)))
    decreases |events|
  {
    var rest, last := events[..|events| - 1], events[|events| - 1];
    assert events == rest + [last];
    forall i | 0 <= i < |rest| ensures !SetsPlain(config, rest[i], key) {
      assert rest[i] == events[i];
    }
    if ArrayValues(rest, key) == [] {
      ArrayValuesAppendOne(rest, last, key);
      FirstAppend(config, fields, rest, last, key);
    } else {
      ArrayValuesAccumulate(config, fields, rest, key);
      NextAppend(config, FieldsAfter(config, fields, rest), rest, last, key, PriorItems(fields, key));
    }
  }

  lemma {:induction false} ArrayValuesHasAppend(events: seq<Event>, key: string, i: int)
    requires 0 <= i < |events| && AppendsTo(events[i], key)
    ensures ArrayValues(events, key) != []
  {
    if i > 0 {
      ArrayValuesHasAppend(events[1..], key, i - 1);
    }
  }

  /** Folding the feedback over a concatenated stream is folding its halves one after the other. */
  lemma {:induction false} FeedbackAfterAppend(config: Config, feedback: Option<string>, a: seq<Event>, b: seq<Event>)
    ensures FeedbackAfter(config, feedback, a + b) == FeedbackAfter(config, FeedbackAfter(config, feedback, a), b)
    decreases |b|
  {
    if b == [] {
      assert a + b == a;
    } else {
      assert (a + b)[..|a + b| - 1] == a + b[..|b| - 1];
      assert (a + b)[|a + b| - 1] == b[|b| - 1];
      FeedbackAfterAppend(config, feedback, a, b[..|b| - 1]);
    }
  }

  /** A stream with no non-empty `feedback` field leaves the feedback text as it was. */
  lemma {:induction false} FeedbackKept(config: Config, feedback: Option<string>, events: seq<Event>)
    requires forall i :: 0 <= i < |events| ==> !SetsFeedback(config, events[i])
    ensures FeedbackAfter(config, feedback, events) == feedback
    decreases |events|
  {
    if events != [] {
      assert !SetsFeedback(config, events[|events| - 1]);
      FeedbackKept(config, feedback, events[..|events| - 1]);
    }
  }

  /**
   * Last wins for the feedback too: when feedback is collected, a non-empty
   * `feedback` field that no later one follows leaves its value as the text.
   */
  lemma LastFeedbackWins(config: Config, feedback: Option<string>, before: seq<Event>, v: string, after: seq<Event>)
    requires SetsFeedback(config, Field("feedback", v))
    requires forall i :: 0 <= i < |after| ==> !SetsFeedback(config, after[i])
    ensures FeedbackAfter(config, feedback, before + [Field("feedback", v)] + after) == Some(v)
  {
    var upTo := before + [Field("feedback", v)];
    assert upTo[..|upTo| - 1] == before;
    FeedbackAfterAppend(config, feedback, upTo, after);
    FeedbackKept(config, FeedbackAfter(config, feedback, upTo), after);
  }
}
