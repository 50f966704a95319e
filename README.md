# onesecmail: the message record, the mailbox and the message filter

This project models the data and filtering layer of `onesecmail`, a client for
the 1secmail disposable-mailbox service, and proves properties of it.

- **`EmailMessage`** (`Mail.EmailMessage`). A message has four identity fields
  (`id`, `from_address`, `to_address`, `date`). They are fixed at construction
  and are Dafny `const`s, so no method can reassign them. It also has five content
  fields (`subject`, `body`, `text_body`, `html_body`, `attachments`), which
  `fetch_content` overwrites in place.
  - The wire date `YYYY-MM-DD HH:MM:SS` gets the fixed offset `+0200` appended
    and is parsed into a timestamp (`Dates`).
  - `from_dict` maps payload keys to fields (`Messages.FromDict`).
  - `__repr__` shows the sender, the subject cut to 27 characters and the date
    (`Messages.Render`).
- **`OneSecMail`** (`Mail.OneSecMail`). The mailbox has a user and a domain
  restricted to an allow-list, and an address `user@domain` (`Addresses`).
  - `from_address` splits an address on `@`.
  - It reads a message with `to` set to its own address.
  - `get_messages` lists the mailbox and walks the list in order. For each
    payload it sets `to`, builds the message and runs the validators as a
    short-circuit AND. It fetches the content of each message that passes and
    returns those messages.
- **Validators** (`Validators`). They match a regular expression at the start
  of the sender or the subject (`Regex`). A validator is a value that holds only
  its pattern, and `Apply` is a function, so calling it again on the same
  message gives the same answer.

The HTTP service is a value of type `Inbox.Remote`. It gives, for each mailbox
(user, domain), the reply to a list request, to a read request for a message id
and to a download request. A reply is a decoded JSON body, a body that is not
JSON, or an HTTP error status. The mailbox appends every list, read and
download request it makes to a ghost `log`. This is what makes "in a run that
returns, each kept message is read once and a rejected one never" a statement
about the methods.

`get_messages` is specified by the pure function `Inbox.Collect`. It gives the
returned messages (or the exception) and the ids read from the service. The
method `Mail.OneSecMail.GetMessages` is proved against it. A run of `Collect`
returns exactly when every listed payload builds and every message the
validators keep reads successfully; otherwise it raises. A run that returns is
proved equal to "build every payload, filter with the validators, refresh each
survivor from one read of its own id".

Exceptions are values: `Result`/`Outcome` with an `Errors.Error`.
- `KeyError` for a missing payload key.
- `DateValueError` for a date `strptime` rejects.
- `DomainNotAllowed` for the setter's `ValueError`.
- `UnpackError` for `user, domain = address.split("@")`.
- `ReadMessageError` and `MessageListError` for the `ValueError`s raised on a
  body that is not JSON.
- `HttpError` for `raise_for_status`.
- `NotImplementedError`.
- `AttributeError` for a call on a missing mail handler.

Notes on the library's behaviour:
- `from_dict` requires `subject` like `id`, `from`, `to` and `date`. An absent
  `body`, `textBody` or `htmlBody` becomes `None`, not the empty string. Only
  `attachments` becomes `[]`. The constructor's own defaults are `""`.
- `fetch_content()` with no handler raises `NotImplementedError`.
- The message-level attachment calls on a message without a handler fail with
  an `AttributeError`.

## Model

| member | source | states |
|---|---|---|
| `Dates.ParseTimestamp` | onesecmail/message.py:62 | a timestamp parsed with `%Y-%m-%d %H:%M:%S%z` is a valid calendar date and time with an offset under a day, read from exactly 24 characters |
| `Dates.ParseMessageDate` | onesecmail/message.py:61-62 | a message date parses only from a 19-character wire text, to a valid timestamp |
| `Dates.ParseFormatted` | onesecmail/message.py:62 | every valid timestamp, written as `%Y-%m-%d %H:%M:%S%z`, parses back to itself |
| `Dates.ParseWireDate` | onesecmail/message.py:43-62 | every valid time at offset +02:00, sent in wire form, is accepted with `+0200` appended and parses back to itself |
| `Dates.ParsedFields` | onesecmail/message.py:61-62 | the fields of a parsed date are the values of the text's digit runs at their fixed positions, the separators are `-`, ` ` and `:`, and the offset is +120 minutes |
| `Dates.ParsedIsWireDate` | onesecmail/message.py:43-62 | a date that parses is exactly the wire form of the parsed timestamp, and the timestamp's offset is DATE_OFFSET's +120 minutes |
| `Dates.FixedOffsetTexts` | onesecmail/message.py:43 | the fixed offset of +120 minutes is written `+0200`, the DATE_OFFSET text, by `%z`, and `+02:00` by `str()` |
| `Dates.Display` | onesecmail/message.py:72 | the shown date is 25 characters and starts with the wire form of the timestamp |
| `Dates.DisplayOfParsedDate` | onesecmail/message.py:72 | a parsed message date is shown as its wire text followed by `+02:00` |
| `Messages.MissingKey` | onesecmail/message.py:106-111 | no key is reported missing exactly when `id`, `from`, `to`, `subject` and `date` are all present; otherwise the first absent one in that order is reported |
| `Messages.NormalizeAttachments` | onesecmail/message.py:67 | absent attachments become the empty list; present ones are kept |
| `Messages.FromDict` | onesecmail/message.py:94-117 | a missing required key raises KeyError naming it; an unparsable date raises the date error; otherwise the identity fields are the payload's, the date is the parse, `subject` is the payload's, absent bodies stay None and absent attachments become [] |
| `Messages.FromDictDate` | onesecmail/message.py:111-117 | a message built from a payload has offset +02:00 and its date gives back the payload's date text |
| `Messages.Merge` | onesecmail/message.py:147-151 | each content field takes the payload's value when the key is present and keeps its value otherwise; a payload with no content key changes nothing |
| `Messages.MergeIdempotent` | onesecmail/message.py:147-151 | applying the same payload twice equals applying it once |
| `Messages.MergeFull` | onesecmail/message.py:147-151 | a payload with all five content keys determines the content whatever it was before |
| `Messages.ShownSubject` | onesecmail/message.py:71 | a subject of at most 27 characters is shown whole; a longer one as its first 27 characters followed by "..." |
| `Messages.ShownSubjectUnchanged` | onesecmail/message.py:71 | the shown subject has at most 30 characters, and equals the subject exactly when the subject fits or is 27 characters plus "..." |
| `Messages.Render` | onesecmail/message.py:70-72 | the text form is 69 to 99 characters longer than the sender, shows the sender right after the 21-character `<EmailMessage; from='` head, and ends with the shown date and `'>` |
| `Messages.RenderShows` | onesecmail/message.py:70-72 | the text form depends only on the sender, the shown subject and the date |
| `Messages.RenderFromDict` | onesecmail/message.py:70-72 | a message built from a payload is shown with the payload's sender, the cut subject and the payload's date text followed by `+02:00` |
| `Regex.MatchAtStartIsPrefixMatch` | onesecmail/validators.py:8-9 | the start-anchored matcher accepts a text exactly when some prefix of it is in the pattern's language: a prefix match, not a full match |
| `Regex.MatchAtStartExtends` | onesecmail/validators.py:8-9 | a text the matcher accepts stays accepted whatever is appended to it |
| `Regex.LiteralMatchesPrefix` | onesecmail/validators.py:8-9 | a literal pattern matches at the start of a text exactly when the text starts with it |
| `Regex.LiteralLanguage` | onesecmail/validators.py:8-9 | a literal pattern's language is the literal alone |
| `Validators.RegexValidator` | onesecmail/validators.py:4-9 | the validator accepts a text exactly when some prefix of the text matches the pattern |
| `Validators.Apply` | onesecmail/validators.py:12-19 | a sender validator accepts exactly when some prefix of the sender is in its pattern's language, a subject validator the same for the subject, and any other callable gives its own verdict |
| `Validators.FromAddressReadsSender` | onesecmail/validators.py:12-14 | two messages with the same sender get the same verdict from a sender validator, whatever their other fields |
| `Validators.FromAddressPrefix` | onesecmail/validators.py:12-14 | a sender the validator accepts stays accepted with anything appended |
| `Validators.SubjectReadsSubject` | onesecmail/validators.py:17-19 | after a content refresh a subject validator judges the refreshed subject: the payload's when present, the old one otherwise |
| `Validators.SubjectLiteral` | onesecmail/validators.py:17-19 | a literal subject pattern accepts exactly the subjects that start with it |
| `Validators.Evaluated` | onesecmail/mail.py:278-282 | the short-circuit loop calls validators up to and including the first that rejects, all of them before it accept, and it calls all of them when all accept |
| `Addresses.Address` | onesecmail/mail.py:73-76 | the address is the user, then "@", then the domain |
| `Addresses.Split` | onesecmail/mail.py:98 | `split` gives at least one part, and a text without the separator comes back as its only part |
| `Addresses.SplitJoin` | onesecmail/mail.py:98 | joining the parts of `split` with the separator gives the text back |
| `Addresses.SplitParts` | onesecmail/mail.py:98 | no part of `split` holds the separator |
| `Addresses.SplitCount` | onesecmail/mail.py:98 | `split` gives one part more than the text has separators |
| `Addresses.ParseAddress` | onesecmail/mail.py:98 | when unpacking succeeds the two parts hold no "@" and rebuild the address; when it fails the error gives a part count other than two |
| `Addresses.ParseAddressSound` | onesecmail/mail.py:98 | unpacking succeeds exactly when the address holds one "@", failing otherwise with the count of parts; the two parts rebuild the address and hold no "@" |
| `Addresses.ParseAddressRoundTrip` | onesecmail/mail.py:98-99 | any user and domain free of "@" are recovered from their address |
| `Inbox.Listed` | onesecmail/mail.py:227 | the payload's `to` is set to the mailbox address and no other key changes |
| `Inbox.ReadPayload` | onesecmail/mail.py:194-228 | a read succeeds exactly when the service returns JSON, and then gives the reply with `to` set to the mailbox address; a non-JSON body raises the read error for that id, and an HTTP error status raises that status |
| `Inbox.Refreshed` | onesecmail/message.py:119-151 | a content refresh never changes id, sender, recipient or date |
| `Inbox.StepOf` | onesecmail/mail.py:276-285 | one turn of the loop raises after at most one read, and a kept message is addressed to the mailbox |
| `Inbox.CollectCounts` | onesecmail/mail.py:274-286 | the loop reads the service at most once per listed payload, and when it returns it returns exactly one message per read |
| `Inbox.GetMessagesRun` | onesecmail/mail.py:251-286 | an HTTP error on the list request raises it and a list body that is not JSON raises the list error, both before any read; otherwise at most one read per listed payload |
| `Inbox.FilterMembers` | onesecmail/mail.py:278-285 | the filter keeps exactly the messages every validator accepts |
| `Inbox.FilterAppend` | onesecmail/mail.py:274-286 | filtering keeps list order: the filter of a concatenation is the concatenation of the filters |
| `Inbox.FilterNoValidators` | onesecmail/mail.py:251 | with no validators the filter keeps every message |
| `Inbox.CollectIsFilterThenRefresh` | onesecmail/mail.py:274-286 | a `get_messages` that returns built every payload, returns the filtered messages in list order, each refreshed from one read of its own id, and read the service for exactly those ids, once each, in order |
| `Inbox.CollectAddressed` | onesecmail/mail.py:276-277 | every message returned is addressed to the mailbox and has the id of one of the listed payloads |
| `Inbox.CollectReturns` | onesecmail/mail.py:274-286 | when every listed payload builds and every message the validators keep reads successfully, the loop returns |
| `Inbox.CollectSucceeds` | onesecmail/mail.py:274-286 | the loop returns exactly when every listed payload builds and every message the validators keep reads successfully; otherwise it raises |
| `Inbox.CollectNoValidators` | onesecmail/mail.py:251-286 | with no validators and every message readable, the loop returns one message per listed payload, in list order, each refreshed from the read of its own id, and reads each of them once |
| `Inbox.CollectRaises` | onesecmail/mail.py:274-286 | a run that raises raised at one listed payload: every payload before it built, the kept ones among them were read successfully and in order, and the run raises that payload's build error, or, when the validators kept it, its read error after that read |
| `Inbox.CollectRejectAll` | onesecmail/mail.py:278-285 | when the validators reject every message, the service is never read again and nothing is returned |
| `Mail.EmailMessage.constructor` | onesecmail/message.py:58-68 | the new message holds the given identity, date, content and handler |
| `Mail.EmailMessage.Create` | onesecmail/message.py:45-68 | an unparsable date raises before any object exists; otherwise the message has the given fields, the parsed date and `attachments or []` |
| `Mail.EmailMessage.FromDict` | onesecmail/message.py:94-117 | the object builder fails exactly as the payload mapping does, and otherwise holds its message and the given handler |
| `Mail.EmailMessage.FetchContent` | onesecmail/message.py:119-151 | with a payload it merges field by field; without one and with no handler it raises NotImplementedError and changes nothing; with a handler it makes one read request and merges the reply, or raises the read's error and changes nothing |
| `Mail.EmailMessage.GetAttachmentContent` | onesecmail/message.py:153-166 | with a handler it makes one download request for this message's id and returns its reply; with none it fails with AttributeError |
| `Mail.AttachmentReply` | onesecmail/mail.py:303-304 | the download succeeds exactly when the service returns content, and then gives that content; an HTTP error status raises that status |
| `Mail.OneSecMail.constructor` | onesecmail/mail.py:43-48 | a mailbox built with an allowed domain holds the given user and domain, keeps its domain allowed and has made no request |
| `Mail.OneSecMail.DomainsFor` | onesecmail/mail.py:44-46 | the allow-list is the given list when it is non-empty, and the service's domain list otherwise |
| `Mail.OneSecMail.Create` | onesecmail/mail.py:43-48 | construction succeeds exactly when the domain is in the allow-list, and otherwise raises the domain error |
| `Mail.OneSecMail.Address` | onesecmail/mail.py:73-76 | the address is the user, then "@", then the domain |
| `Mail.OneSecMail.FromAddress` | onesecmail/mail.py:83-99 | an address with other than one "@" fails to unpack; otherwise the mailbox has the parts before and after "@" as user and domain, and its address is the given one |
| `Mail.OneSecMail.SetDomain` | onesecmail/mail.py:67-71 | a domain outside the allow-list raises the domain error and leaves the domain unchanged; an allowed one is stored; the domain stays allowed |
| `Mail.OneSecMail.GetMessageAsDict` | onesecmail/mail.py:194-228 | one read request; the result is the read reply with `to` set to the mailbox address |
| `Mail.OneSecMail.GetMessage` | onesecmail/mail.py:230-249 | one read request; a failed read raises its error; otherwise the message is built from the reply with this mailbox as its handler |
| `Mail.OneSecMail.GetAttachmentContent` | onesecmail/mail.py:288-304 | one download request; the result is the service's content or its HTTP error |
| `Mail.OneSecMail.RunValidators` | onesecmail/mail.py:278-282 | the loop returns true exactly when every validator accepts, after exactly as many calls as the short-circuit count |
| `Mail.OneSecMail.TakeListed` | onesecmail/mail.py:276-285 | one turn of the loop: it makes exactly the reads that turn of `Collect` makes, and raises, skips, or returns a fresh message with this handler holding the refreshed message |
| `Mail.OneSecMail.Advance` | onesecmail/mail.py:275-285 | one turn keeps the loop invariant: what was kept and read so far, followed by the rest of the run, is the whole run, or the turn's exception ends the whole run |
| `Mail.OneSecMail.CollectListed` | onesecmail/mail.py:274-286 | the loop over the listed payloads returns what `Collect` returns, as fresh message objects with this handler, and makes exactly `Collect`'s read requests |
| `Mail.OneSecMail.GetMessages` | onesecmail/mail.py:251-286 | one list request, then the requests and the result of `GetMessagesRun`: an HTTP error or a non-JSON list raises, otherwise the filtered and refreshed messages |

## Left out

- HTTP transport is out. The URL, query parameters, headers, `requests_kwargs`
  and `request` are left out, and JSON decoding is abstracted to "JSON or
  not". The service is the `Remote` value.
- The service is a fixed snapshot: the `Remote` value answers the same request
  with the same reply every time, while the real service changes as mail
  arrives and expires. Two reads of the same id therefore get the same
  message. Only a listing that repeats an id within one run would depend on
  this.
- `get_available_domains` is modelled only as the service's domain list, and
  its failure is not modelled. `get_random_mailbox` and
  `generate_random_mailbox` are left out: they need network, `uuid4` and
  `random.choice`.
- `download_attachment`, at message and at mailbox level, is left out: it
  writes a file. Only `get_attachment_content` is modelled.
- `utils.py` (default headers and user agent) is not part of this model.
- `__repr__` of the mailbox is a display string and is not modelled.
- Regular expressions are restricted to a fragment: sequences of literal
  characters or `.` (any character but a newline), each once, optional (`?`)
  or repeated (`*`). The rest of Python's `re` syntax is not modelled.
- `Dates.ParseTimestamp`: `strptime` is more lenient than the model. It also
  accepts one-digit month, day and time fields, a space-padded day such as
  `" 5"`, any run of whitespace between the date and the time, and non-ASCII
  decimal digits. The model accepts only full-width ASCII fields with one
  space between date and time, so such a date is rejected here. Its `%z` also
  accepts `Z`, `+HH:MM` and offsets with seconds, which the model rejects. No
  call path reaches these forms: the message date always gets `+0200`
  appended before it is parsed.
- Payload values are never JSON `null`: a key is present with a value or
  absent. A payload that is not a mapping, or a list entry that is not one, is
  not modelled.
- Validators other than the two regex ones are pure functions of the message
  value. A callable with side effects, or one that raises, is not modelled.
- Validators are applied to the message value, not to the object; the model
  has no mutable validator state.
- `Inbox.Collect`, `Inbox.GetMessagesRun`, `Mail.OneSecMail.GetMessages`,
  `Mail.OneSecMail.CollectListed` and `Inbox.CollectRejectAll` take the
  validators as a list or tuple, which every message walks again from the
  start. A one-use iterator such as a generator is not modelled: the inner
  loop would use it up on the first messages, and later messages would then
  pass with fewer validators or none.
- `Mail.OneSecMail.Valid` and `Mail.EmailMessage`: the allow-list and the
  attachment list are held as values. Python keeps the caller's own list
  object: the `available_domains` property hands back the list passed to the
  constructor, and `attachments` is the payload's list. A caller that changes
  that list later changes the mailbox or the message too, and can break the
  allow-list invariant (the domain in the allow-list) that `Valid` states.
  The model does not capture this aliasing.
- `Mail.OneSecMail.Create` with an empty allow-list uses the service's domain
  list, but that request is not appended to the `log`.
- The domain getter is the `domain` field of `Mail.OneSecMail`. `user` is a
  plain field that nothing but the constructor sets.
- Concurrency is not modelled; the client has none.
