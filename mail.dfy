/** The two objects of the client: `EmailMessage`, whose identity fields are
    fixed at construction and whose content fields are overwritten by a
    content fetch, and `OneSecMail`, the mailbox, whose domain is checked
    against an allow-list and which lists, reads and filters messages. A
    message keeps a reference to the mailbox that built it (its mail
    handler) and reads through it. Every request to the service is appended
    to the mailbox's ghost `log`. */
module Mail {
  import opened Wrappers
  import opened Errors
  import opened Messages
  import opened Validators
  import opened Addresses
  import opened Inbox
  import Dates

  class EmailMessage {
    const id: int
    const fromAddress: string
    const toAddress: string
    const date: Dates.Timestamp
    var subject: string
    var body: Option<string>
    var textBody: Option<string>
    var htmlBody: Option<string>
    var attachments: seq<Attachment>
    const mailHandler: OneSecMail?

    /** The mailbox this message reads through, as a frame. */
    function Handlers(): set<OneSecMail> {
      if mailHandler == null then {} else {mailHandler}
    }

    function CurrentContent(): Content
      reads this
    {
      Content(subject, body, textBody, htmlBody, attachments)
    }

    /** All fields of the message. */
    function Value(): Message
      reads this
    {
      Message(id, fromAddress, toAddress, date, CurrentContent())
    }

    constructor (id: int, fromAddress: string, toAddress: string, date: Dates.Timestamp,
                 content: Content, mailHandler: OneSecMail?)
      ensures Value() == Message(id, fromAddress, toAddress, date, content)
      ensures this.mailHandler == mailHandler
    {
      this.id := id;
      this.fromAddress := fromAddress;
      this.toAddress := toAddress;
      this.date := date;
      this.mailHandler := mailHandler;
      subject := content.subject;
      body := content.body;
      textBody := content.textBody;
      htmlBody := content.htmlBody;
      attachments := content.attachments;
    }

    /** `EmailMessage(...)`: the date text gets DATE_OFFSET appended and is
        parsed; a date that does not parse raises before any object exists. */
    static method Create(messageId: int, fromAddress: string, toAddress: string, date: string,
                         subject: string := "", body: Option<string> := Some(""),
                         textBody: Option<string> := Some(""), htmlBody: Option<string> := Some(""),
                         attachments: Option<seq<Attachment>> := None,
                         mailHandler: OneSecMail? := null)
      returns (r: Result<EmailMessage, Error>)
      ensures Dates.ParseMessageDate(date).None? ==> r == Failure(DateValueError(date))
      ensures Dates.ParseMessageDate(date).Some? ==>
        && r.Success? && fresh(r.value) && r.value.mailHandler == mailHandler
        && r.value.Value() == Message(messageId, fromAddress, toAddress,
                                      Dates.ParseMessageDate(date).value,
                                      Content(subject, body, textBody, htmlBody,
                                              NormalizeAttachments(attachments)))
    {
      match Dates.ParseMessageDate(date)
      case None =>
        r := Failure(DateValueError(date));
      case Some(parsed) =>
        var content := Content(subject, body, textBody, htmlBody, NormalizeAttachments(attachments));
        var message := new EmailMessage(messageId, fromAddress, toAddress, parsed, content, mailHandler);
        r := Success(message);
    }

    /** `EmailMessage.from_dict(data, mail_handler=...)`. */
    static method FromDict(data: Payload, mailHandler: OneSecMail?) returns (r: Result<EmailMessage, Error>)
      ensures r.Failure? <==> Messages.FromDict(data).Failure?
      ensures r.Failure? ==> r.error == Messages.FromDict(data).error
      ensures r.Success? ==>
        && fresh(r.value) && r.value.mailHandler == mailHandler
        && r.value.Value() == Messages.FromDict(data).value
    {
      match MissingKey(data)
      case Some(key) =>
        r := Failure(KeyError(key));
      case None =>
        r := Create(data.id.value, data.from.value, data.to.value, data.date.value,
                    data.subject.value, data.body, data.textBody, data.htmlBody,
                    data.attachments, mailHandler);
    }

    /** `fetch_content(message_data)`. With a payload, merges it field by
        field. Without one, reads the message through the mail handler and
        merges that; with no handler it raises NotImplementedError. A
        failure leaves every field of the message as it was. */
    method FetchContent(messageData: Option<Payload> := None) returns (r: Outcome<Error>)
      modifies this, Handlers()`log
      ensures messageData.Some? ==>
        r == Pass && CurrentContent() == Merge(old(CurrentContent()), messageData.value)
      ensures messageData.None? && mailHandler == null ==>
        r == Fail(NotImplementedError) && unchanged(this)
      ensures messageData.None? && mailHandler != null ==>
        var read := ReadPayload(mailHandler.remote, mailHandler.user, mailHandler.domain, id);
        && mailHandler.log == old(mailHandler.log) + [ReadRequest(mailHandler.user, mailHandler.domain, id)]
        && (read.Failure? ==> r == Fail(read.error) && unchanged(this))
        && (read.Success? ==> r == Pass && CurrentContent() == Merge(old(CurrentContent()), read.value))
      ensures messageData.Some? || mailHandler == null ==> unchanged(Handlers())
    {
      var data: Payload;
      match messageData {
        case Some(given) =>
          data := given;
        case None =>
          if mailHandler == null {
            return Fail(NotImplementedError);
          }
          var read := mailHandler.GetMessageAsDict(id);
          if read.Failure? {
            return Fail(read.error);
          }
          data := read.value;
      }
      var merged := Merge(CurrentContent(), data);
      subject := merged.subject;
      body := merged.body;
      textBody := merged.textBody;
      htmlBody := merged.htmlBody;
      attachments := merged.attachments;
      r := Pass;
    }

    /** `get_attachment_content(filename)`: asks the mail handler for the
        file of this message; with no handler the call fails on `None`. */
    method GetAttachmentContent(filename: string) returns (r: Result<seq<bv8>, Error>)
      modifies Handlers()`log
      ensures mailHandler == null ==> r == Failure(AttributeError)
      ensures mailHandler != null ==>
        && r == AttachmentReply(mailHandler.remote, mailHandler.user, mailHandler.domain, id, filename)
        && mailHandler.log == old(mailHandler.log)
                              + [DownloadRequest(mailHandler.user, mailHandler.domain, id, filename)]
    {
      if mailHandler == null {
        return Failure(AttributeError);
      }
      r := mailHandler.GetAttachmentContent(id, filename);
    }
  }

  /** The bytes of an attachment, or the HTTP error status the service gave. */
  function AttachmentReply(remote: Remote, user: string, domain: string, id: int,
                           filename: string): (r: Result<seq<bv8>, Error>)
    ensures r.Success? <==> remote.download(user, domain, id, filename).Success?
    ensures r.Success? ==> r.value == remote.download(user, domain, id, filename).value
    ensures remote.download(user, domain, id, filename).Failure? ==>
            r == Failure(HttpError(remote.download(user, domain, id, filename).error))
  {
    match remote.download(user, domain, id, filename)
    case Success(content) => Success(content)
    case Failure(status) => Failure(HttpError(status))
  }

  class OneSecMail {
    const availableDomains: seq<string>
    var user: string
    var domain: string
    const remote: Remote
    ghost var log: seq<Request>

    /** The domain is always one of the allowed domains. */
    ghost predicate Valid()
      reads this
    {
      domain in availableDomains
    }

    /** The `address` property. */
    function Address(): (address: string)
      reads this
      ensures |address| == |user| + 1 + |domain|
      ensures address[..|user|] == user && address[|user|] == '@' && address[|user| + 1..] == domain
    {
      Addresses.Address(user, domain)
    }

    constructor (user: string, domain: string, availableDomains: seq<string>, remote: Remote)
      requires domain in availableDomains
      ensures Valid() && log == []
      ensures this.user == user && this.domain == domain
      ensures this.availableDomains == availableDomains && this.remote == remote
    {
      this.availableDomains := availableDomains;
      this.user := user;
      this.domain := domain;
      this.remote := remote;
      log := [];
    }

    /** The allow-list `__init__` uses: the given list, or the service's
        when none (or an empty one) is given. */
    static function DomainsFor(availableDomains: seq<string>, remote: Remote): (domains: seq<string>)
      ensures availableDomains != [] ==> domains == availableDomains
      ensures availableDomains == [] ==> domains == remote.domainList
    {
      if availableDomains != [] then availableDomains else remote.domainList
    }

    /** `OneSecMail(user, domain, available_domains=...)`: the domain setter
        rejects a domain outside the allow-list with ValueError. */
    static method Create(user: string, domain: string, availableDomains: seq<string>, remote: Remote)
      returns (r: Result<OneSecMail, Error>)
      ensures r.Success? <==> domain in DomainsFor(availableDomains, remote)
      ensures r.Failure? ==> r.error == DomainNotAllowed(domain)
      ensures r.Success? ==>
        && fresh(r.value) && r.value.Valid() && r.value.log == []
        && r.value.user == user && r.value.domain == domain
        && r.value.availableDomains == DomainsFor(availableDomains, remote)
        && r.value.remote == remote
    {
      var domains := DomainsFor(availableDomains, remote);
      if domain !in domains {
        return Failure(DomainNotAllowed(domain));
      }
      var mailbox := new OneSecMail(user, domain, domains, remote);
      r := Success(mailbox);
    }

    /** `OneSecMail.from_address(address)`: the address must split on "@"
        into exactly a user and a domain. */
    static method FromAddress(address: string, availableDomains: seq<string>, remote: Remote)
      returns (r: Result<OneSecMail, Error>)
      ensures ParseAddress(address).Failure? ==> r == Failure(ParseAddress(address).error)
      ensures ParseAddress(address).Success? ==>
        var (user, domain) := ParseAddress(address).value;
        && (r.Success? <==> domain in DomainsFor(availableDomains, remote))
        && (r.Failure? ==> r.error == DomainNotAllowed(domain))
        && (r.Success? ==> fresh(r.value) && r.value.Valid() && r.value.Address() == address
                           && r.value.user == user && r.value.domain == domain)
    {
      match ParseAddress(address)
      case Failure(e) =>
        r := Failure(e);
      case Success(parts) =>
        ParseAddressSound(address);
        r := Create(parts.0, parts.1, availableDomains, remote);
    }

    /** The domain setter: a domain outside the allow-list raises ValueError
        and leaves the mailbox as it was. */
    method SetDomain(value: string) returns (r: Outcome<Error>)
      requires Valid()
      modifies this`domain
      ensures Valid()
      ensures r == Pass <==> value in availableDomains
      ensures r == Pass ==> domain == value
      ensures r != Pass ==> r == Fail(DomainNotAllowed(value)) && domain == old(domain)
    {
      if value !in availableDomains {
        return Fail(DomainNotAllowed(value));
      }
      domain := value;
      r := Pass;
    }

    /** `get_message_as_dict(id)`: one read request; the reply gets `to`
        set to the mailbox address. */
    method GetMessageAsDict(id: int) returns (r: Result<Payload, Error>)
      modifies this`log
      ensures r == ReadPayload(remote, user, domain, id)
      ensures log == old(log) + [ReadRequest(user, domain, id)]
    {
      log := log + [ReadRequest(user, domain, id)];
      match remote.reading(user, domain, id)
      case HttpStatus(status) =>
        r := Failure(HttpError(status));
      case NotJson(_) =>
        r := Failure(ReadMessageError(id));
      case Ok(data) =>
        data := data.(to := Some(Address()));
        r := Success(data);
    }

    /** `get_message(id)`: reads the message and builds it with this mailbox
        as its handler. */
    method GetMessage(id: int) returns (r: Result<EmailMessage, Error>)
      modifies this`log
      ensures log == old(log) + [ReadRequest(user, domain, id)]
      ensures var read := ReadPayload(remote, user, domain, id);
        && (read.Failure? ==> r == Failure(read.error))
        && (read.Success? ==>
              && (r.Failure? <==> Messages.FromDict(read.value).Failure?)
              && (r.Failure? ==> r.error == Messages.FromDict(read.value).error)
              && (r.Success? ==> fresh(r.value) && r.value.mailHandler == this
                                 && r.value.Value() == Messages.FromDict(read.value).value))
    {
      var read := GetMessageAsDict(id);
      if read.Failure? {
        return Failure(read.error);
      }
      r := EmailMessage.FromDict(read.value, this);
    }

    /** `get_attachment_content(message_id, filename)`: one download request. */
    method GetAttachmentContent(id: int, filename: string) returns (r: Result<seq<bv8>, Error>)
      modifies this`log
      ensures r == AttachmentReply(remote, user, domain, id, filename)
      ensures log == old(log) + [DownloadRequest(user, domain, id, filename)]
    {
      log := log + [DownloadRequest(user, domain, id, filename)];
      match remote.download(user, domain, id, filename)
      case Success(content) =>
        r := Success(content);
      case Failure(status) =>
        r := Failure(HttpError(status));
    }

    /** The inner loop of `get_messages`: calls the validators in order and
        stops at the first that rejects. `calls` counts the calls made. */
    static method RunValidators(validators: seq<Validator>, message: Message)
      returns (valid: bool, ghost calls: nat)
      ensures valid <==> AllPass(validators, message)
      ensures calls == Evaluated(validators, message)
    {
      valid := true;
      calls := 0;
      var i := 0;
      while i < |validators|
        invariant 0 <= i <= |validators|
        invariant calls == i
        invariant forall j :: 0 <= j < i ==> Apply(validators[j], message)
        invariant Evaluated(validators, message) == i + Evaluated(validators[i..], message)
      {
        calls := calls + 1;
        if !Apply(validators[i], message) {
          valid := false;
          assert Evaluated(validators[i..], message) == 1;
          break;
        }
        assert validators[i..][1..] == validators[i + 1..];
        i := i + 1;
      }
    }

    /** One turn of the `get_messages` loop: sets `to`, builds the message,
        runs the validators and, for a message they all accept, fetches its
        content through this mailbox. None: the message was rejected. */
    method TakeListed(data: Payload, validators: seq<Validator>)
      returns (r: Result<Option<EmailMessage>, Error>)
      modifies this`log
      ensures var step := StepOf(data, validators, remote, user, domain);
        && log == old(log) + ReadRequests(user, domain, StepIds(step))
        && (r.Failure? <==> step.Raised?)
        && (r.Failure? ==> r.error == step.error)
        && (r == Success(None) <==> step.Skipped?)
        && (r.Success? && r.value.Some? ==>
              && step.Kept? && fresh(r.value.value) && r.value.value.mailHandler == this
              && r.value.value.Value() == step.message)
    {
      var listed := data.(to := Some(Address()));
      var built := EmailMessage.FromDict(listed, this);
      if built.Failure? {
        return Failure(built.error);
      }
      var message := built.value;
      ghost var calls;
      var valid;
      valid, calls := RunValidators(validators, message.Value());
      if !valid {
        return Success(None);
      }
      var fetched := message.FetchContent();
      if fetched.Fail? {
        return Failure(fetched.error);
      }
      r := Success(Some(message));
    }

    /** The message objects carry this mailbox as their handler and hold,
        in order, the message values `values`. */
    ghost predicate Holds(messages: seq<EmailMessage>, values: seq<Message>)
      reads messages
    {
      && |messages| == |values|
      && forall j :: 0 <= j < |messages| ==>
           messages[j].mailHandler == this && messages[j].Value() == values[j]
    }

    lemma HoldsAppend(messages: seq<EmailMessage>, values: seq<Message>, message: EmailMessage, value: Message)
      requires Holds(messages, values)
      requires message.mailHandler == this && message.Value() == value
      ensures Holds(messages + [message], values + [value])
    {
    }

    /** One turn of the loop of `get_messages` on payload `data`, carrying
        the loop invariant over the turn, or ending the whole run `whole`
        with the exception it raises. */
    method Advance(data: Payload, validators: seq<Validator>,
                   messages: seq<EmailMessage>, ghost values: seq<Message>, ghost readIds: seq<int>,
                   ghost whole: Run, ghost rest: Run, ghost logBase: seq<Request>)
      returns (r: Result<seq<EmailMessage>, Error>, ghost values2: seq<Message>, ghost readIds2: seq<int>)
      requires whole == Prepend(values, readIds, StepRun(StepOf(data, validators, remote, user, domain), rest))
      requires Holds(messages, values)
      requires log == logBase + ReadRequests(user, domain, readIds)
      modifies this`log
      ensures log == logBase + ReadRequests(user, domain, readIds2)
      ensures r.Failure? ==> whole == Run(Failure(r.error), readIds2)
      ensures r.Success? ==>
        && whole == Prepend(values2, readIds2, rest)
        && Holds(r.value, values2)
        && forall m <- r.value :: m in messages || fresh(m)
    {
      ghost var step := StepOf(data, validators, remote, user, domain);
      StepAdvance(step, values, readIds, rest);
      ReadRequestsAppend(user, domain, readIds, StepIds(step));
      readIds2 := readIds + StepIds(step);
      ghost var stepReads := ReadRequests(user, domain, StepIds(step));
      var taken := TakeListed(data, validators);
      assert log == (logBase + ReadRequests(user, domain, readIds)) + stepReads;
      assert log == logBase + (ReadRequests(user, domain, readIds) + stepReads);
      match taken {
        case Failure(e) =>
          assert step.Raised? && e == step.error;
          r := Failure(e);
          values2 := values;
        case Success(None) =>
          assert step.Skipped?;
          r := Success(messages);
          values2 := values;
        case Success(Some(message)) =>
          assert step.Kept? && message.Value() == step.message;
          HoldsAppend(messages, values, message, step.message);
          r := Success(messages + [message]);
          values2 := values + [step.message];
      }
    }

    /** The loop of `get_messages` over the listed payloads: its result and
        its read requests are those of `Collect`. */
    method CollectListed(payloads: seq<Payload>, validators: seq<Validator>)
      returns (r: Result<seq<EmailMessage>, Error>)
      modifies this`log
      ensures var run := Collect(payloads, validators, remote, user, domain);
        && log == old(log) + ReadRequests(user, domain, run.readIds)
        && (r.Failure? <==> run.result.Failure?)
        && (r.Failure? ==> r.error == run.result.error)
        && (r.Success? ==> (forall m <- r.value :: fresh(m)) && Holds(r.value, run.result.value))
    {
      var messages: seq<EmailMessage> := [];
      ghost var values: seq<Message> := [];
      ghost var readIds: seq<int> := [];
      assert payloads[0..] == payloads;
      PrependNothing(Collect(payloads, validators, remote, user, domain));
      for i := 0 to |payloads|
        invariant log == old(log) + ReadRequests(user, domain, readIds)
        invariant forall m <- messages :: fresh(m)
        invariant Holds(messages, values)
        invariant Collect(payloads, validators, remote, user, domain)
                  == Prepend(values, readIds, Collect(payloads[i..], validators, remote, user, domain))
      {
        CollectAt(payloads, i, validators, remote, user, domain);
        var next;
        next, values, readIds := Advance(payloads[i], validators, messages, values, readIds,
                                         Collect(payloads, validators, remote, user, domain),
                                         Collect(payloads[i + 1..], validators, remote, user, domain),
                                         old(log));
        if next.Failure? {
          return Failure(next.error);
        }
        messages := next.value;
      }
      assert payloads[|payloads|..] == [];
      r := Success(messages);
    }

    /** `get_messages(validators)`: lists the mailbox and runs the loop over
        the listed payloads: one read request per kept message, none for a
        rejected one, kept messages in list order. The result and the
        requests are those of `GetMessagesRun`. */
    method GetMessages(validators: seq<Validator> := []) returns (r: Result<seq<EmailMessage>, Error>)
      modifies this`log
      ensures var run := GetMessagesRun(remote, user, domain, validators);
        && log == old(log) + [ListRequest(user, domain)] + ReadRequests(user, domain, run.readIds)
        && (r.Failure? <==> run.result.Failure?)
        && (r.Failure? ==> r.error == run.result.error)
        && (r.Success? ==> (forall m <- r.value :: fresh(m)) && Holds(r.value, run.result.value))
    {
      log := log + [ListRequest(user, domain)];
      match remote.listing(user, domain) {
        case HttpStatus(status) =>
          r := Failure(HttpError(status));
        case NotJson(_) =>
          r := Failure(MessageListError);
        case Ok(payloads) =>
          r := CollectListed(payloads, validators);
      }
    }
  }
}
