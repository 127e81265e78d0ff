/**
 * The publish route (routes/publish.js): method dispatch, and the POST
 * handler that turns the multipart events of one request into what it writes
 * to the ledger's input stream: the uploaded files, then one attachment per
 * posted sequence, then the normalized record.
 */
module PublishRoute {
  import opened Options
  import opened Sequences
  import opened Decimal
  import opened PublishFields
  import opened PublishNormalize
  import opened Http

  /** Where an attachment's bytes come from: an uploaded file's stream (opaque here) or a posted sequence. */
  datatype Content = Upload(field: string) | Text(text: string)

  datatype Attachment = Attachment(content: Content, filename: string, encoding: string, mimetype: string)

  /** One object written to the ledger's input stream. */
  datatype Item = AttachmentItem(attachment: Attachment) | RecordItem(record: Record)

  /** The verdict of the reCAPTCHA check, an external service here: an error, a rejection, a pass. */
  datatype Captcha = CaptchaFailed | CaptchaRejected | CaptchaPassed

  const CaptchaKey := "g-recaptcha-response"
  const SequencesKey := "sequences"

  /** GET serves the form, POST publishes, every other method is refused. */
  function Route(verb: string): (h: Handler)
    ensures h == ServeForm <==> verb == "GET"
    ensures h == HandlePost <==> verb == "POST"
    ensures h == MethodNotAllowed <==> verb != "GET" && verb != "POST"
  {
    if verb == "GET" then ServeForm
    else if verb == "POST" then HandlePost
    else MethodNotAllowed
  }

  /** The uploaded files of a stream, as the `file` handler forwards them, in arrival order. */
  function Uploads(events: seq<Event>): (items: seq<Item>)
    ensures |items| <= |events|
    ensures forall i :: 0 <= i < |items| ==> items[i].AttachmentItem? && items[i].attachment.content.Upload?
    decreases |events|
  {
    if events == [] then []
    else
      var before := Uploads(events[..|events| - 1]);
      match events[|events| - 1]
      case File(field, filename, encoding, mimetype) =>
        before + [AttachmentItem(Attachment(Upload(field), filename, encoding, mimetype))]
      case Field(_, _) => before
  }

  function SequenceFilename(index: nat): string {
    "sequence" + NatToString(index) + ".fasta"
  }

  function SequenceAttachment(sequence: string, index: nat): Attachment {
    Attachment(Text(sequence), SequenceFilename(index), "UTF-8", "chemical/fasta")
  }

  /** The attachments made from a list of sequences, numbered from zero. */
  function SequenceItems(sequences: seq<string>): seq<Item>
    decreases |sequences|
  {
    if sequences == [] then []
    else
      var n := |sequences| - 1;
      SequenceItems(sequences[..n]) + [AttachmentItem(SequenceAttachment(sequences[n], n))]
  }

  /** Only an array-valued `sequences` field is turned into attachments. */
  function SequencesOf(r: Record): seq<string> {
    if SequencesKey in r && r[SequencesKey].Arr? then r[SequencesKey].items else []
  }

  /** What a request whose captcha passed writes after its uploads. */
  function Publication(fields: Record): seq<Item> {
    var record := Normalized(fields - {CaptchaKey});
    SequenceItems(SequencesOf(record)) + [RecordItem(record - {SequencesKey})]
  }

  /** The `i`-th sequence becomes attachment `i`, named `sequence<i>.fasta`, of type `chemical/fasta`. */
  lemma {:induction false} SequenceItemsAt(sequences: seq<string>)
    ensures |SequenceItems(sequences)| == |sequences|
    ensures forall i :: 0 <= i < |sequences| ==>
      SequenceItems(sequences)[i] == AttachmentItem(SequenceAttachment(sequences[i], i))
    decreases |sequences|
  {
    if sequences != [] {
      var n := |sequences| - 1;
      SequenceItemsAt(sequences[..n]);
    }
  }

  /** No two sequence attachments of a request share a filename. */
  lemma SequenceFilenamesDistinct(i: nat, j: nat)
    requires i != j
    ensures SequenceFilename(i) != SequenceFilename(j)
  {
    if SequenceFilename(i) == SequenceFilename(j) {
      var a, b := NatToString(i), NatToString(j);
      assert "sequence" + a + ".fasta" == "sequence" + (a + ".fasta");
      assert "sequence" + b + ".fasta" == "sequence" + (b + ".fasta");
      assert a + ".fasta" == ("sequence" + (a + ".fasta"))[8..] == ("sequence" + (b + ".fasta"))[8..] == b + ".fasta";
      RenderedPrefixUnique(i, j, ".fasta", ".fasta");
    }
  }

  /**
   * What a passed request writes after its uploads: one attachment per
   * element of an array-valued `sequences` field, in index order, and then
   * the record, last.
   */
  lemma PublicationOrder(fields: Record)
    ensures var p := Publication(fields);
      && |p| == |SequencesOf(fields)| + 1
      && p[|p| - 1].RecordItem?
      && forall i :: 0 <= i < |p| - 1 ==> p[i] == AttachmentItem(SequenceAttachment(SequencesOf(fields)[i], i))
  {
    var record := Normalized(fields - {CaptchaKey});
    NormalizeLeavesOthers(fields - {CaptchaKey}, SequencesKey);
    assert SequencesOf(record) == SequencesOf(fields);
    SequenceItemsAt(SequencesOf(fields));
  }

  /**
   * The record written to the ledger carries no captcha response and no
   * `sequences`, and does carry the `metadata` object.
   */
  lemma PublishedRecordClean(fields: Record)
    ensures var p := Publication(fields);
      && p[|p| - 1].RecordItem?
      && CaptchaKey !in p[|p| - 1].record
      && SequencesKey !in p[|p| - 1].record
      && HasMetadata(p[|p| - 1].record)
  {
    var record := Normalized(fields - {CaptchaKey});
    NormalizeLeavesOthers(fields - {CaptchaKey}, CaptchaKey);
    NormalizedMetadata(fields - {CaptchaKey}, "");
  }

  /** The state of one POST request to the publish route. */
  class PublishRequest {
    const config: Config
    /** The field dictionary, `fields` in the route. */
    var fields: Record
    /** The text of a plain `feedback` field, when feedback is collected apart. */
    var feedback: Option<string>
    /** Everything written to the ledger's input stream so far. */
    var output: seq<Item>
    /** The ledger's input stream has been ended. */
    var ended: bool
    var response: Response
    /** The parser events seen so far. */
    ghost var events: seq<Event>

    /** While the stream is open, the state is the fold of the events seen. */
    ghost predicate Valid()
      reads this
    {
      !ended ==>
        && fields == FieldsAfter(config, map[], events)
        && feedback == FeedbackAfter(config, None, events)
        && output == Uploads(events)
        && response == Unsent
    }

    constructor (config: Config)
      ensures Valid() && !ended && this.config == config && events == []
      ensures fields == map[] && feedback == None && output == [] && response == Unsent
    {
      this.config := config;
      fields := map[];
      feedback := None;
      output := [];
      ended := false;
      response := Unsent;
      events := [];
    }

    /** The `field` handler. */
    method OnField(name: string, value: string)
      requires Valid() && !ended
      modifies this
      ensures Valid() && !ended && events == old(events) + [Field(name, value)]
      ensures fields == StoreField(config, old(fields), name, value)
      ensures feedback == StoreFeedback(config, old(feedback), name, value)
      ensures output == old(output) && response == old(response)
    {
      events := events + [Field(name, value)];
      assert events[..|events| - 1] == old(events);
      if |value| == 0 {
        return;
      }
      if HasSuffix(name, "[]") {
        var key := name[..|name| - 2];
        if key in fields && fields[key].Arr? {
          fields := fields[key := Arr(fields[key].items + [value])];
        } else {
          fields := fields[key := Arr([value])];
        }
      } else if config.feedbackEnabled && name == "feedback" {
        feedback := Some(value);
      } else {
        fields := fields[name := Str(value)];
      }
    }

    /** The `file` handler: the upload is forwarded to the ledger at once. */
    method OnFile(field: string, filename: string, encoding: string, mimetype: string)
      requires Valid() && !ended
      modifies this
      ensures Valid() && !ended && events == old(events) + [File(field, filename, encoding, mimetype)]
      ensures output == old(output) + [AttachmentItem(Attachment(Upload(field), filename, encoding, mimetype))]
      ensures fields == old(fields) && feedback == old(feedback) && response == old(response)
    {
      events := events + [File(field, filename, encoding, mimetype)];
      assert events[..|events| - 1] == old(events);
      output := output + [AttachmentItem(Attachment(Upload(field), filename, encoding, mimetype))];
    }

    /** `normalize`, applied to this request's field dictionary: a fresh `metadata`, then the three passes. */
    method Normalize()
      modifies this`fields
      ensures fields == Normalized(old(fields))
    {
      fields := fields[MetadataKey := Meta(map[])];
      MoveLists();
      DropEmpty();
      StripLines();
    }

    /** The first pass: listed keys with a length move under `metadata`. */
    method MoveLists()
      requires HasMetadata(fields)
      modifies this`fields
      ensures fields == MoveAll(old(fields), ArrayKeys)
    {
      for i := 0 to |ArrayKeys|
        invariant fields == MoveAll(old(fields), ArrayKeys[..i])
      {
        var key := ArrayKeys[i];
        assert ArrayKeys[..i + 1][..i] == ArrayKeys[..i];
        if key in fields && HasLength(fields[key]) {
          var list := fields[key];
          fields := fields - {key};
          fields := fields[MetadataKey := Meta(fields[MetadataKey].entries[key := list])];
        }
      }
      assert ArrayKeys[..|ArrayKeys|] == ArrayKeys;
    }

    /** The second pass: `''` leaves the optional arrays, an empty optional string is deleted. */
    method DropEmpty()
      modifies this`fields
      ensures fields == DropAll(old(fields), DeleteIfEmpty)
    {
      for i := 0 to |DeleteIfEmpty|
        invariant fields == DropAll(old(fields), DeleteIfEmpty[..i])
      {
        var key := DeleteIfEmpty[i];
        assert DeleteIfEmpty[..i + 1][..i] == DeleteIfEmpty[..i];
        if key in fields && fields[key].Arr? {
          fields := fields[key := Arr(Without(fields[key].items, ""))];
        } else if key in fields && fields[key] == Str("") {
          fields := fields - {key};
        }
      }
      assert DeleteIfEmpty[..|DeleteIfEmpty|] == DeleteIfEmpty;
    }

    /** The third pass: carriage returns leave the prose fields. */
    method StripLines()
      modifies this`fields
      ensures fields == StripAll(old(fields), NormalizeLines)
    {
      for i := 0 to |NormalizeLines|
        invariant fields == StripAll(old(fields), NormalizeLines[..i])
      {
        var key := NormalizeLines[i];
        assert NormalizeLines[..i + 1][..i] == NormalizeLines[..i];
        if key in fields && fields[key].Str? {
          fields := fields[key := Str(Without(fields[key].text, '\r'))];
        }
      }
      assert NormalizeLines[..|NormalizeLines|] == NormalizeLines;
    }

    /** Turns the posted sequences into attachments, numbered from zero, in order. */
    method WriteSequences(sequences: seq<string>)
      modifies this`output
      ensures output == old(output) + SequenceItems(sequences)
    {
      for index := 0 to |sequences|
        invariant output == old(output) + SequenceItems(sequences[..index])
      {
        assert sequences[..index + 1][..index] == sequences[..index];
        output := output + [AttachmentItem(SequenceAttachment(sequences[index], index))];
      }
      assert sequences[..|sequences|] == sequences;
    }

    /** What a passed request writes: `normalize`, the sequence attachments, then the record without `sequences`. */
    method WritePublication()
      modifies this`fields, this`output
      ensures output == old(output) + SequenceItems(SequencesOf(Normalized(old(fields))))
                                    + [RecordItem(Normalized(old(fields)) - {SequencesKey})]
      ensures fields == Normalized(old(fields)) - {SequencesKey}
    {
      Normalize();
      if SequencesKey in fields && fields[SequencesKey].Arr? {
        WriteSequences(fields[SequencesKey].items);
      }
      fields := fields - {SequencesKey};
      output := output + [RecordItem(fields)];
    }

    /**
     * The `finish` handler, given the captcha verdict: an error answers 500,
     * a rejection answers 400, and a pass writes the sequences and the
     * record; in every case the ledger's input is then ended.
     */
    method OnFinish(captcha: Captcha)
      requires Valid() && !ended
      modifies this
      ensures ended && events == old(events) && feedback == old(feedback)
      ensures captcha != CaptchaPassed ==> fields == old(fields) - {CaptchaKey}
      ensures captcha == CaptchaPassed ==> fields == Normalized(old(fields) - {CaptchaKey}) - {SequencesKey}
      ensures captcha == CaptchaFailed ==> response == Sent(500, "") && output == old(output)
      ensures captcha == CaptchaRejected ==> response == Sent(400, "invalid captcha") && output == old(output)
      ensures captcha == CaptchaPassed ==> response == Unsent && output == old(output) + Publication(old(fields))
    {
      fields := fields - {CaptchaKey};
      match captcha
      case CaptchaFailed =>
        response := Sent(500, "");
        ended := true;
      case CaptchaRejected =>
        response := Sent(400, "invalid captcha");
        ended := true;
      case CaptchaPassed =>
        WritePublication();
        ended := true;
    }
  }
}
