/**
 * Error types of `types.rs`: the one error value the program reports, its
 * `Display`/`Debug` text, and the conversions into it, including the scan of a
 * provider fault document for its `Message` element.
 *
 * The XML reader is an input: a fault's text comes with the events a reader
 * yields for it. Running out of events counts as reaching the end of the
 * document, which is what the reader reports there.
 */
module Types {
  import opened Wrappers

  /** `MetaError(String)`: an error reduced to its message. */
  datatype MetaError = MetaError(message: string)

  /** `Display for MetaError`: the inner message, nothing added. */
  function Display(e: MetaError): (text: string)
    ensures text == e.message
  {
    e.message
  }

  /** `Debug for MetaError` delegates to `Display`. */
  function Debug(e: MetaError): (text: string)
    ensures text == Display(e) && text == e.message
  {
    Display(e)
  }

  /** `derive_from!`: any error with a displayable text becomes a `MetaError` carrying that text. */
  function DeriveFrom(displayed: string): (e: MetaError)
    ensures Display(e) == displayed && Debug(e) == displayed
  {
    MetaError(displayed)
  }

  /** `io::Error::new(kind, message)`; its `to_string` is the message. */
  datatype IoError = IoError(kind: string, message: string)

  function IoErrorText(e: IoError): string
  {
    e.message
  }

  /** `From<io::Error>` through `derive_from!`: the message comes through unchanged. */
  function FromIoError(e: IoError): (r: MetaError)
    ensures Display(r) == e.message
  {
    DeriveFrom(IoErrorText(e))
  }

  /** One event of the XML reader: a start tag (with the text `read_text` decodes for it, or `None` when it cannot), anything else, end of input, or a parse error. */
  datatype XmlEvent =
    | Start(name: string, text: Option<string>)
    | Other
    | Eof
    | Error

  /** `ListObjectsV2Error`: its display text and the events an XML reader yields over that text. */
  datatype ListObjectsV2Error = ListObjectsV2Error(text: string, events: seq<XmlEvent>)

  /** What a conversion ends in: an error value, or the panic of `expect`. */
  datatype Conversion = Converted(error: MetaError) | Panicked(reason: string)

  const XmlDeclaration: string := "<?xml"
  const MessageTag: string := "Message"
  const DecodePanic: string := "Cannot decode text value"

  predicate IsXml(msg: string)
  {
    |msg| >= |XmlDeclaration| && msg[..|XmlDeclaration|] == XmlDeclaration
  }

  /** An event that ends the scan: end of input, a reader error, or a `Message` start tag. */
  predicate Stops(e: XmlEvent)
  {
    e.Eof? || e.Error? || (e.Start? && e.name == MessageTag)
  }

  /** The index of the first event that ends the scan, or the number of events if none does. */
  function StopIndex(events: seq<XmlEvent>): (k: nat)
    ensures k <= |events|
    ensures forall j :: 0 <= j < k ==> !Stops(events[j])
    ensures k < |events| ==> Stops(events[k])
  {
    if events == [] then 0
    else if Stops(events[0]) then 0
    else 1 + StopIndex(events[1..])
  }

  /**
   * The result of `From<ListObjectsV2Error>`: a message that is not an XML
   * document comes through as it is; for a document, the text of the first
   * `Message` element met before the end or an error, a panic when that text
   * cannot be decoded, and the raw message when there is no such element.
   */
  function Translate(msg: string, events: seq<XmlEvent>): (r: Conversion)
    ensures !IsXml(msg) ==> r == Converted(MetaError(msg))
    ensures IsXml(msg) ==> forall k ::
      (0 <= k < |events| && events[k].Start? && events[k].name == MessageTag &&
       forall j :: 0 <= j < k ==> !Stops(events[j])) ==>
        r == (if events[k].text.Some? then Converted(MetaError(events[k].text.value)) else Panicked(DecodePanic))
    ensures (forall k :: 0 <= k < |events| ==> !(events[k].Start? && events[k].name == MessageTag)) ==>
      r == Converted(MetaError(msg))
    ensures r.Panicked? ==> IsXml(msg) && r.reason == DecodePanic
    ensures r.Converted? && r.error.message != msg ==>
      exists k :: 0 <= k < |events| && events[k] == Start(MessageTag, Some(r.error.message)) &&
        forall j :: 0 <= j < k ==> !Stops(events[j])
  {
    if !IsXml(msg) then Converted(MetaError(msg))
    else
      var k := StopIndex(events);
      if k < |events| && events[k].Start? then
        match events[k].text
        case Some(t) => Converted(MetaError(t))
        case None => Panicked(DecodePanic)
      else Converted(MetaError(msg))
  }

  /** `From<ListObjectsV2Error> for MetaError`: the reader loop. */
  method FromListError(err: ListObjectsV2Error) returns (r: Conversion)
    ensures r == Translate(err.text, err.events)
  {
    var msg := err.text;
    if IsXml(msg) {
      var events := err.events;
      var i := 0;
      while i < |events|
        invariant i <= |events|
        invariant forall j :: 0 <= j < i ==> !Stops(events[j])
      {
        var event := events[i];
        if event.Eof? || event.Error? {
          break;
        }
        if event.Start? && event.name == MessageTag {
          match event.text
          case Some(t) => { return Converted(MetaError(t)); }
          case None => { return Panicked(DecodePanic); }
        }
        i := i + 1;
      }
      StopIndexAt(events, i);
    }
    r := Converted(MetaError(msg));
  }

  lemma {:induction false} StopIndexAt(events: seq<XmlEvent>, i: nat)
    requires i <= |events|
    requires forall j :: 0 <= j < i ==> !Stops(events[j])
    requires i < |events| ==> Stops(events[i])
    ensures StopIndex(events) == i
  {
    if i > 0 {
      assert !Stops(events[0]);
      StopIndexAt(events[1..], i - 1);
    }
  }

  /** A message that does not start with `<?xml` is returned unchanged, whatever the reader would say. */
  lemma PlainMessageUnchanged(msg: string, events: seq<XmlEvent>)
    requires !IsXml(msg)
    ensures Translate(msg, events) == Converted(MetaError(msg))
  {
  }

  /** An event that does not end the scan is skipped without effect. */
  lemma {:induction false} SkipsOtherEvents(msg: string, e: XmlEvent, events: seq<XmlEvent>)
    requires !Stops(e)
    ensures Translate(msg, [e] + events) == Translate(msg, events)
  {
    var all := [e] + events;
    assert all[1..] == events;
    assert StopIndex(all) == 1 + StopIndex(events);
  }

  /** Once the scan has stopped, later events, later `Message` elements included, change nothing. */
  lemma {:induction false} LaterEventsIgnored(msg: string, events: seq<XmlEvent>, rest: seq<XmlEvent>)
    requires StopIndex(events) < |events|
    ensures Translate(msg, events + rest) == Translate(msg, events)
  {
    var k := StopIndex(events);
    var all := events + rest;
    assert forall j :: 0 <= j <= k ==> all[j] == events[j];
    StopIndexAt(all, k);
  }

  /** Reaching the end of input or a reader error before any `Message` falls back to the raw message. */
  lemma {:induction false} FallsBackToRaw(msg: string, events: seq<XmlEvent>)
    requires IsXml(msg)
    requires StopIndex(events) == |events| || !events[StopIndex(events)].Start?
    ensures Translate(msg, events) == Converted(MetaError(msg))
  {
  }

  /**
   * The unit test `converting_rusoto_to_error`: an `<Error>` document with a
   * `<Code>` and a `<Message>m</Message>` converts to exactly `m`.
   */
  lemma {:induction false} FaultDocumentExample(doc: string, m: string)
    requires IsXml(doc)
    ensures Translate(doc, [Start("Error", Some("")), Other, Start("Code", Some("InvalidAccessKeyId")), Other,
                            Start(MessageTag, Some(m)), Other, Other, Eof])
            == Converted(MetaError(m))
  {
    var events := [Start("Error", Some("")), Other, Start("Code", Some("InvalidAccessKeyId")), Other,
                   Start(MessageTag, Some(m)), Other, Other, Eof];
    assert !Stops(events[0]) && !Stops(events[2]);
    StopIndexAt(events, 4);
  }

  /** The unit tests of the plain conversions: `&str`, `String` and `io::Error` keep the message. */
  lemma PlainConversionsKeepMessage(message: string, kind: string)
    ensures DeriveFrom(message).message == message
    ensures FromIoError(IoError(kind, message)).message == message
  {
  }
}
