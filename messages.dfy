/** The value side of an email message: the payload the service sends, the
    mapping from payload keys to message fields, the field-by-field content
    merge, and the text form of a message. The object that holds these
    fields is `Mail.EmailMessage`. */
module Messages {
  import opened Wrappers
  import opened Errors
  import Dates

  /** An attachment descriptor, without its content. */
  datatype Attachment = Attachment(filename: string, contentType: string, size: int)

  /** A message payload: each field is None when its key is absent. */
  datatype Payload = Payload(
    id: Option<int>,
    from: Option<string>,
    to: Option<string>,
    subject: Option<string>,
    date: Option<string>,
    attachments: Option<seq<Attachment>>,
    body: Option<string>,
    textBody: Option<string>,
    htmlBody: Option<string>)

  /** The mutable content fields of a message. */
  datatype Content = Content(
    subject: string,
    body: Option<string>,
    textBody: Option<string>,
    htmlBody: Option<string>,
    attachments: seq<Attachment>)

  /** All fields of a message: four identity fields and the content. */
  datatype Message = Message(
    id: int,
    fromAddress: string,
    toAddress: string,
    date: Dates.Timestamp,
    content: Content)

  /** The first required key absent from `data`, in the order the keys are read. */
  function MissingKey(data: Payload): (key: Option<string>)
    ensures key.None? <==> (data.id.Some? && data.from.Some? && data.to.Some?
                            && data.subject.Some? && data.date.Some?)
    ensures data.id.None? ==> key == Some("id")
    ensures data.id.Some? && data.from.None? ==> key == Some("from")
    ensures data.id.Some? && data.from.Some? && data.to.None? ==> key == Some("to")
    ensures data.id.Some? && data.from.Some? && data.to.Some? && data.subject.None?
            ==> key == Some("subject")
    ensures (data.id.Some? && data.from.Some? && data.to.Some? && data.subject.Some?
             && data.date.None?) ==> key == Some("date")
  {
    if data.id.None? then Some("id")
    else if data.from.None? then Some("from")
    else if data.to.None? then Some("to")
    else if data.subject.None? then Some("subject")
    else if data.date.None? then Some("date")
    else None
  }

  /** `attachments or []`: an absent list becomes the empty list. */
  function NormalizeAttachments(attachments: Option<seq<Attachment>>): (r: seq<Attachment>)
    ensures attachments.None? ==> r == []
    ensures attachments.Some? ==> r == attachments.value
  {
    attachments.GetOr([])
  }

  /** Builds the message a payload describes: the five required keys must be
      present and the date must parse with DATE_OFFSET appended. */
  function FromDict(data: Payload): (r: Result<Message, Error>)
    ensures r.Success? <==> MissingKey(data).None? && Dates.ParseMessageDate(data.date.value).Some?
    ensures MissingKey(data).Some? ==> r == Failure(KeyError(MissingKey(data).value))
    ensures MissingKey(data).None? && Dates.ParseMessageDate(data.date.value).None?
            ==> r == Failure(DateValueError(data.date.value))
    ensures r.Success? ==>
      && MissingKey(data).None?
      && r.value.id == data.id.value
      && r.value.fromAddress == data.from.value
      && r.value.toAddress == data.to.value
      && Some(r.value.date) == Dates.ParseMessageDate(data.date.value)
      && r.value.content == Content(data.subject.value, data.body, data.textBody,
                                    data.htmlBody, NormalizeAttachments(data.attachments))
  {
    match MissingKey(data)
    case Some(key) => Failure(KeyError(key))
    case None =>
      match Dates.ParseMessageDate(data.date.value)
      case None => Failure(DateValueError(data.date.value))
      case Some(date) =>
        Success(Message(data.id.value, data.from.value, data.to.value, date,
                        Content(data.subject.value, data.body, data.textBody, data.htmlBody,
                                NormalizeAttachments(data.attachments))))
  }

  /** A message built from a payload reports the payload's date text back in
      wire form, at offset +02:00. */
  lemma FromDictDate(data: Payload)
    requires FromDict(data).Success?
    ensures FromDict(data).value.date.offset == Dates.DATE_OFFSET_MINUTES
    ensures Dates.WireDate(FromDict(data).value.date) == data.date.value
  {
    Dates.ParsedIsWireDate(data.date.value, FromDict(data).value.date);
  }

  /** `fetch_content(data)`: each content field takes the payload's value when
      its key is present and keeps its current value otherwise. */
  function Merge(c: Content, data: Payload): (r: Content)
    ensures r.subject == if data.subject.Some? then data.subject.value else c.subject
    ensures r.body == if data.body.Some? then data.body else c.body
    ensures r.textBody == if data.textBody.Some? then data.textBody else c.textBody
    ensures r.htmlBody == if data.htmlBody.Some? then data.htmlBody else c.htmlBody
    ensures r.attachments == if data.attachments.Some? then data.attachments.value else c.attachments
    ensures HasNoContent(data) ==> r == c
  {
    Content(data.subject.GetOr(c.subject),
            if data.body.Some? then data.body else c.body,
            if data.textBody.Some? then data.textBody else c.textBody,
            if data.htmlBody.Some? then data.htmlBody else c.htmlBody,
            data.attachments.GetOr(c.attachments))
  }

  /** A payload with none of the five content keys. */
  predicate HasNoContent(data: Payload) {
    data.subject.None? && data.body.None? && data.textBody.None?
    && data.htmlBody.None? && data.attachments.None?
  }

  /** A payload carrying all five content keys. */
  predicate HasAllContent(data: Payload) {
    data.subject.Some? && data.body.Some? && data.textBody.Some?
    && data.htmlBody.Some? && data.attachments.Some?
  }

  /** Applying the same payload twice is the same as applying it once. */
  lemma MergeIdempotent(c: Content, data: Payload)
    ensures Merge(Merge(c, data), data) == Merge(c, data)
  {
  }

  /** A payload with every content key determines the content outright. */
  lemma MergeFull(c1: Content, c2: Content, data: Payload)
    requires HasAllContent(data)
    ensures Merge(c1, data) == Merge(c2, data)
  {
  }

  /** How many characters of the subject `__repr__` shows before cutting. */
  const SUBJECT_PREVIEW: nat := 27

  /** The subject as `__repr__` shows it: cut to 27 characters and marked
      with "..." when longer than that. */
  function ShownSubject(subject: string): (shown: string)
    ensures |subject| <= SUBJECT_PREVIEW ==> shown == subject
    ensures |subject| > SUBJECT_PREVIEW ==>
      |shown| == SUBJECT_PREVIEW + 3 && shown[..SUBJECT_PREVIEW] == subject[..SUBJECT_PREVIEW]
      && shown[SUBJECT_PREVIEW..] == "..."
  {
    if |subject| > SUBJECT_PREVIEW then subject[..SUBJECT_PREVIEW] + "..." else subject
  }

  /** The shown subject is never longer than 30 characters, and it is the
      subject itself exactly when the subject fits, or when cutting it and
      adding "..." happens to rebuild it. */
  lemma ShownSubjectUnchanged(subject: string)
    ensures |ShownSubject(subject)| <= SUBJECT_PREVIEW + 3
    ensures ShownSubject(subject) == subject <==>
      (|subject| <= SUBJECT_PREVIEW
       || (|subject| == SUBJECT_PREVIEW + 3 && subject[SUBJECT_PREVIEW..] == "..."))
  {
    if |subject| > SUBJECT_PREVIEW && ShownSubject(subject) == subject {
      assert |subject| == SUBJECT_PREVIEW + 3;
    }
    if |subject| == SUBJECT_PREVIEW + 3 && subject[SUBJECT_PREVIEW..] == "..." {
      assert subject == subject[..SUBJECT_PREVIEW] + subject[SUBJECT_PREVIEW..];
    }
  }

  /** Where the second and the last of four joined texts lie in the join. */
  lemma Framed(a: string, x: string, b: string, c: string)
    ensures |a + x + b + c| == |a| + |x| + |b| + |c|
    ensures (a + x + b + c)[|a|..|a| + |x|] == x
    ensures (a + x + b + c)[|a| + |x| + |b|..] == c
  {
    assert (a + x + b + c)[|a|..|a| + |x|] == (a + x)[|a|..];
  }

  /** `__repr__` of a message. */
  function Render(m: Message): (text: string)
    requires Dates.Valid(m.date)
    ensures |m.fromAddress| + 69 <= |text| <= |m.fromAddress| + 99
    ensures text[21..21 + |m.fromAddress|] == m.fromAddress
    ensures text[|text| - 27..] == Dates.Display(m.date) + "'>"
  {
    var head := "<EmailMessage; from='";
    var middle := "', subject='" + ShownSubject(m.content.subject) + "', date='";
    var closing := Dates.Display(m.date) + "'>";
    Framed(head, m.fromAddress, middle, closing);
    head + m.fromAddress + middle + closing
  }

  /** The text form depends on the sender, the shown subject and the date
      only: identity number, recipient and bodies do not appear in it. */
  lemma RenderShows(m1: Message, m2: Message)
    requires Dates.Valid(m1.date) && Dates.Valid(m2.date)
    requires m1.fromAddress == m2.fromAddress && m1.date == m2.date
    requires ShownSubject(m1.content.subject) == ShownSubject(m2.content.subject)
    ensures Render(m1) == Render(m2)
  {
  }

  /** The text form of a message built from a payload shows the sender, the
      subject and the payload's date text with `+02:00`. */
  lemma RenderFromDict(data: Payload)
    requires FromDict(data).Success?
    ensures Dates.Valid(FromDict(data).value.date)
    ensures Render(FromDict(data).value) ==
      "<EmailMessage; from='" + data.from.value + ("', subject='" + ShownSubject(data.subject.value) + "', date='")
      + (data.date.value + "+02:00" + "'>")
  {
    Dates.DisplayOfParsedDate(data.date.value, FromDict(data).value.date);
  }
}
