/**
 * The 10K-genes prefill route (routes/tenkgenes.js): a partner posts a
 * submission's fields with a shared secret, and gets back the publish form
 * prefilled with the submitter's name, a description headed by a sentence
 * naming the part type, and the posted sequences.
 */
module TenKGenes {
  import opened Options
  import opened Http

  /** The only fields kept as scalars. */
  const Fields: seq<string> := ["first", "last", "type", "description", "secret"]
  const SequencesField := "sequences[]"

  /** The sentence that heads the description of each known part type. */
  const TypeHeaders: map<string, string> := map[
    "Promoter" := "The submission is a promoter.",
    "RBS" := "The submission is a ribosome-binding site.",
    "CDS" := "The submission is a coding DNA sequence.",
    "Terminator" := "The submission is a transcription terminator."
  ]

  /** One posted form field, in arrival order. */
  datatype Posted = Posted(name: string, value: string)

  /** `values` in the route: the whitelisted scalars and the posted sequences. */
  datatype Values = Values(scalars: map<string, string>, sequences: seq<string>)

  /** What the route answers: a refusal, or the prefilled form's name, description and sequences. */
  datatype Reply = Refused(status: nat, body: string) | Prefill(name: string, description: Option<string>, sequences: seq<string>)

  /** Only POST is handled. */
  function Route(verb: string): (h: Handler)
    ensures h == HandlePost <==> verb == "POST"
    ensures h == MethodNotAllowed <==> verb != "POST"
  {
    if verb == "POST" then HandlePost else MethodNotAllowed
  }

  /** JavaScript's string concatenation with a field that may be `undefined`. */
  function JsText(o: Option<string>): string {
    match o
    case Some(s) => s
    case None => "undefined"
  }

  /** The `field` handler's effect on `values`. */
  function Collect(v: Values, name: string, value: string): (r: Values)
    ensures forall k :: k != name ==> Lookup(r.scalars, k) == Lookup(v.scalars, k)
    ensures Lookup(r.scalars, name) == (if |value| != 0 && name in Fields then Some(value) else Lookup(v.scalars, name))
    ensures r.sequences == v.sequences + (if |value| != 0 && name == SequencesField then [value] else [])
  {
    if |value| == 0 then v
    else if name in Fields then v.(scalars := v.scalars[name := value])
    else if name == SequencesField then v.(sequences := v.sequences + [value])
    else v
  }

  /** `values` after a whole stream of fields, starting from `{sequences: []}`. */
  function CollectAll(posted: seq<Posted>): Values
    decreases |posted|
  {
    if posted == [] then Values(map[], [])
    else
      var last := posted[|posted| - 1];
      Collect(CollectAll(posted[..|posted| - 1]), last.name, last.value)
  }

  /** The last non-empty value posted under `name`, if any. */
  function LastValue(posted: seq<Posted>, name: string): Option<string>
    decreases |posted|
  {
    if posted == [] then None
    else match LastValue(posted[1..], name)
      case Some(v) => Some(v)
      case None => if posted[0].name == name && |posted[0].value| != 0 then Some(posted[0].value) else None
  }

  /** The non-empty values posted as `sequences[]`, in arrival order. */
  function SequenceValues(posted: seq<Posted>): seq<string>
    decreases |posted|
  {
    if posted == [] then []
    else
      (if posted[0].name == SequencesField && |posted[0].value| != 0 then [posted[0].value] else [])
      + SequenceValues(posted[1..])
  }

  /** The description after the rewrite: a known type puts its sentence and a blank line in front. */
  function Described(kind: Option<string>, description: Option<string>): (d: Option<string>)
    ensures kind.Some? && kind.value in TypeHeaders ==>
      d == Some(TypeHeaders[kind.value] + "\n\n" + JsText(description))
    ensures !(kind.Some? && kind.value in TypeHeaders) ==> d == description
  {
    if kind.Some? && kind.value in TypeHeaders then Some(TypeHeaders[kind.value] + "\n\n" + JsText(description))
    else description
  }

  /** The `finish` handler's answer for the collected values and the configured secret. */
  function Respond(v: Values, secret: Option<string>): (r: Reply)
    ensures r.Refused? <==> Lookup(v.scalars, "secret") != secret
    ensures r.Refused? ==> r == Refused(400, "unauthorized")
    ensures r.Prefill? ==> r.sequences == v.sequences
  {
    if Lookup(v.scalars, "secret") != secret then Refused(400, "unauthorized")
    else Prefill(
      JsText(Lookup(v.scalars, "first")) + " " + JsText(Lookup(v.scalars, "last")),
      Described(Lookup(v.scalars, "type"), Lookup(v.scalars, "description")),
      v.sequences)
  }

  lemma {:induction false} LastValueAppend(posted: seq<Posted>, p: Posted, name: string)
    ensures LastValue(posted + [p], name)
         == (if p.name == name && |p.value| != 0 then Some(p.value) else LastValue(posted, name))
    decreases |posted|
  {
    if posted == [] {
      assert [p][1..] == [];
    } else {
      assert (posted + [p])[0] == posted[0];
      assert (posted + [p])[1..] == posted[1..] + [p];
      LastValueAppend(posted[1..], p, name);
    }
  }

  lemma {:induction false} SequenceValuesAppend(posted: seq<Posted>, p: Posted)
    ensures SequenceValues(posted + [p])
         == SequenceValues(posted) + (if p.name == SequencesField && |p.value| != 0 then [p.value] else [])
    decreases |posted|
  {
    if posted == [] {
      assert [p][1..] == [];
    } else {
      assert (posted + [p])[0] == posted[0];
      assert (posted + [p])[1..] == posted[1..] + [p];
      SequenceValuesAppend(posted[1..], p);
    }
  }

  /**
   * Only `first`, `last`, `type`, `description` and `secret` are kept, each
   * holding the last non-empty value posted under its name.
   */
  lemma {:induction false} ScalarIsLastValue(posted: seq<Posted>, name: string)
    ensures Lookup(CollectAll(posted).scalars, name) == (if name in Fields then LastValue(posted, name) else None)
    decreases |posted|
  {
    if posted != [] {
      var front, last := posted[..|posted| - 1], posted[|posted| - 1];
      assert posted == front + [last];
      ScalarIsLastValue(front, name);
      LastValueAppend(front, last, name);
    }
  }

  /** The sequences are the non-empty `sequences[]` values, in arrival order, from an empty list. */
  lemma {:induction false} SequencesInArrivalOrder(posted: seq<Posted>)
    ensures CollectAll(posted).sequences == SequenceValues(posted)
    decreases |posted|
  {
    if posted != [] {
      var front, last := posted[..|posted| - 1], posted[|posted| - 1];
      assert posted == front + [last];
      SequencesInArrivalOrder(front);
      SequenceValuesAppend(front, last);
    }
  }

  /** A request whose secret differs from the configured one gets 400 `unauthorized` and no form. */
  lemma WrongSecretRefused(v: Values, secret: Option<string>)
    requires Lookup(v.scalars, "secret") != secret
    ensures Respond(v, secret) == Refused(400, "unauthorized")
  {
  }

  /**
   * An accepted request gets the name `first + ' ' + last`, its sequences
   * unchanged, and a description from which, for a known type, the posted
   * description is read back after the header and the blank line.
   */
  lemma PrefillContents(v: Values, secret: Option<string>)
    requires Lookup(v.scalars, "secret") == secret
    ensures var r := Respond(v, secret);
      && r.Prefill?
      && r.name == JsText(Lookup(v.scalars, "first")) + " " + JsText(Lookup(v.scalars, "last"))
      && r.sequences == v.sequences
      && (Lookup(v.scalars, "type").Some? && Lookup(v.scalars, "type").value in TypeHeaders ==>
            var header := TypeHeaders[Lookup(v.scalars, "type").value];
            && r.description.Some?
            && r.description.value[..|header|] == header
            && r.description.value[|header| + 2..] == JsText(Lookup(v.scalars, "description")))
      && (!(Lookup(v.scalars, "type").Some? && Lookup(v.scalars, "type").value in TypeHeaders) ==>
            r.description == Lookup(v.scalars, "description"))
  {
    var kind := Lookup(v.scalars, "type");
    if kind.Some? && kind.value in TypeHeaders {
      var header := TypeHeaders[kind.value];
      var d := header + "\n\n" + JsText(Lookup(v.scalars, "description"));
      assert d == header + ("\n\n" + JsText(Lookup(v.scalars, "description")));
      assert d[..|header|] == header;
      assert d[|header| + 2..] == JsText(Lookup(v.scalars, "description"));
    }
  }

  /** The state of one POST request to the prefill route. */
  class PrefillRequest {
    var scalars: map<string, string>
    var sequences: seq<string>
    /** The fields posted so far. */
    ghost var posted: seq<Posted>

    ghost predicate Valid()
      reads this
    {
      Values(scalars, sequences) == CollectAll(posted)
    }

    constructor ()
      ensures Valid() && posted == [] && scalars == map[] && sequences == []
    {
      scalars := map[];
      sequences := [];
      posted := [];
    }

    /** The `field` handler. */
    method OnField(name: string, value: string)
      requires Valid()
      modifies this
      ensures Valid() && posted == old(posted) + [Posted(name, value)]
      ensures Values(scalars, sequences) == Collect(old(Values(scalars, sequences)), name, value)
    {
      posted := posted + [Posted(name, value)];
      assert posted[..|posted| - 1] == old(posted);
      if |value| == 0 {
        return;
      }
      if name in Fields {
        scalars := scalars[name := value];
      } else if name == SequencesField {
        sequences := sequences + [value];
      }
    }

    /**
     * The `finish` handler: checks the secret and, when it matches, rewrites
     * the description in place and answers with the prefilled form.
     */
    method OnFinish(secret: Option<string>) returns (reply: Reply)
      modifies this
      ensures reply == Respond(old(Values(scalars, sequences)), secret)
      ensures sequences == old(sequences)
      ensures forall k :: k != "description" ==> Lookup(scalars, k) == Lookup(old(scalars), k)
      ensures reply.Prefill? ==> Lookup(scalars, "description") == reply.description
      ensures reply.Refused? ==> scalars == old(scalars)
    {
      if Lookup(scalars, "secret") != secret {
        reply := Refused(400, "unauthorized");
      } else {
        var kind := Lookup(scalars, "type");
        if kind.Some? && kind.value in TypeHeaders {
          scalars := scalars["description" := TypeHeaders[kind.value] + "\n\n" + JsText(Lookup(scalars, "description"))];
        }
        reply := Prefill(
          JsText(Lookup(scalars, "first")) + " " + JsText(Lookup(scalars, "last")),
          Lookup(scalars, "description"),
          sequences);
      }
    }
  }
}
