/** What the mailbox does with the service's replies, as values: the remote
    service, the read of one message with its recipient filled in, and the
    outcome of `get_messages` (build, filter, then refresh) for a given list
    of payloads. The objects that perform these steps are in `Mail`. */
module Inbox {
  import opened Wrappers
  import opened Errors
  import opened Messages
  import opened Validators
  import opened Addresses

  /** A reply from the service: a decoded JSON body, a body that is not
      JSON, or an HTTP error status. */
  datatype Reply<T> = Ok(body: T) | NotJson(text: string) | HttpStatus(status: int)

  /** The service, as the replies it gives for a mailbox (user, domain). */
  datatype Remote = Remote(
    domainList: seq<string>,
    listing: (string, string) -> Reply<seq<Payload>>,
    reading: (string, string, int) -> Reply<Payload>,
    download: (string, string, int, string) -> Result<seq<bv8>, int>)

  /** A request sent to the service on behalf of a mailbox. */
  datatype Request =
    | ListRequest(login: string, domain: string)
    | ReadRequest(login: string, domain: string, id: int)
    | DownloadRequest(login: string, domain: string, id: int, file: string)

  /** The read requests for the given ids, in order. */
  function ReadRequests(user: string, domain: string, ids: seq<int>): (rs: seq<Request>)
    ensures |rs| == |ids|
    ensures forall i :: 0 <= i < |ids| ==> rs[i] == ReadRequest(user, domain, ids[i])
  {
    seq(|ids|, i requires 0 <= i < |ids| => ReadRequest(user, domain, ids[i]))
  }

  /** `message_data["to"] = address`. */
  function Listed(data: Payload, address: string): (r: Payload)
    ensures r.to == Some(address)
    ensures r.(to := data.to) == data
  {
    data.(to := Some(address))
  }

  /** `get_message_as_dict(id)`: the read reply with `to` set to the
      mailbox address; an error status or a body that is not JSON fails. */
  function ReadPayload(remote: Remote, user: string, domain: string, id: int): (r: Result<Payload, Error>)
    ensures r.Success? <==> remote.reading(user, domain, id).Ok?
    ensures r.Success? ==> r.value == Listed(remote.reading(user, domain, id).body, Address(user, domain))
    ensures r.Success? ==> r.value.to == Some(Address(user, domain))
    ensures remote.reading(user, domain, id).NotJson? ==> r == Failure(ReadMessageError(id))
    ensures remote.reading(user, domain, id).HttpStatus? ==>
            r == Failure(HttpError(remote.reading(user, domain, id).status))
  {
    match remote.reading(user, domain, id)
    case HttpStatus(status) => Failure(HttpError(status))
    case NotJson(_) => Failure(ReadMessageError(id))
    case Ok(data) => Success(Listed(data, Address(user, domain)))
  }

  /** `fetch_content(data)` applied to a message value. */
  function Refreshed(m: Message, data: Payload): (r: Message)
    ensures r.id == m.id && r.fromAddress == m.fromAddress
    ensures r.toAddress == m.toAddress && r.date == m.date
  {
    m.(content := Merge(m.content, data))
  }

  /** What a run of the `get_messages` loop produced: the messages returned
      or the exception raised, and the ids read from the service on the way. */
  datatype Run = Run(result: Result<seq<Message>, Error>, readIds: seq<int>)

  /** Messages `ms` and readIds `ids` done before the run `rest`. */
  function Prepend(ms: seq<Message>, ids: seq<int>, rest: Run): Run {
    Run(if rest.result.Success? then Success(ms + rest.result.value) else rest.result,
        ids + rest.readIds)
  }

  lemma PrependNothing(rest: Run)
    ensures Prepend([], [], rest) == rest
  {
    if rest.result.Success? {
      assert [] + rest.result.value == rest.result.value;
    }
    assert [] + rest.readIds == rest.readIds;
  }

  lemma PrependPrepend(ms1: seq<Message>, ids1: seq<int>, ms2: seq<Message>, ids2: seq<int>, rest: Run)
    ensures Prepend(ms1, ids1, Prepend(ms2, ids2, rest)) == Prepend(ms1 + ms2, ids1 + ids2, rest)
  {
    if rest.result.Success? {
      assert ms1 + (ms2 + rest.result.value) == (ms1 + ms2) + rest.result.value;
    }
    assert ids1 + (ids2 + rest.readIds) == (ids1 + ids2) + rest.readIds;
  }

  /** What the loop does with one payload: raise (after reading the given
      ids), skip it, or keep the refreshed message. */
  datatype Step = Raised(error: Error, ids: seq<int>) | Skipped | Kept(message: Message)

  /** One turn of the `get_messages` loop: the payload gets the mailbox
      address as `to` and becomes a message; the validators are ANDed; only
      a message that passes is read again from the service and merged. */
  function StepOf(data: Payload, vs: seq<Validator>, remote: Remote, user: string, domain: string): (step: Step)
    ensures step.Raised? ==> |step.ids| <= 1
    ensures step.Kept? ==> step.message.toAddress == Address(user, domain)
  {
    match FromDict(Listed(data, Address(user, domain)))
    case Failure(e) => Raised(e, [])
    case Success(m) =>
      if !AllPass(vs, m) then Skipped
      else
        match ReadPayload(remote, user, domain, m.id)
        case Failure(e) => Raised(e, [m.id])
        case Success(full) => Kept(Refreshed(m, full))
  }

  /** The run of one turn followed by the run `rest` of the later turns. */
  function StepRun(step: Step, rest: Run): (run: Run)
    ensures step.Raised? ==> run == Run(Failure(step.error), step.ids)
    ensures step.Skipped? ==> run == rest
    ensures step.Kept? ==> run == Prepend([step.message], [step.message.id], rest)
  {
    match step
    case Raised(e, ids) => Run(Failure(e), ids)
    case Skipped => rest
    case Kept(m) => Prepend([m], [m.id], rest)
  }

  /** The `get_messages` loop over `payloads`; the first exception ends it. */
  function Collect(payloads: seq<Payload>, vs: seq<Validator>, remote: Remote,
                   user: string, domain: string): (run: Run)
    decreases |payloads|
  {
    if payloads == [] then Run(Success([]), [])
    else
      StepRun(StepOf(payloads[0], vs, remote, user, domain),
              Collect(payloads[1..], vs, remote, user, domain))
  }

  /** The loop reads the service at most once per listed payload, and a run
      that returns gives one message per read. */
  lemma {:induction false} CollectCounts(payloads: seq<Payload>, vs: seq<Validator>, remote: Remote,
                                         user: string, domain: string)
    ensures var run := Collect(payloads, vs, remote, user, domain);
      && |run.readIds| <= |payloads|
      && (run.result.Success? ==> |run.result.value| == |run.readIds|)
    decreases |payloads|
  {
    if payloads != [] {
      CollectCounts(payloads[1..], vs, remote, user, domain);
    }
  }

  /** The run from position `i` on, unfolded by one payload. */
  lemma CollectAt(payloads: seq<Payload>, i: nat, vs: seq<Validator>, remote: Remote,
                  user: string, domain: string)
    requires i < |payloads|
    ensures Collect(payloads[i..], vs, remote, user, domain)
            == StepRun(StepOf(payloads[i], vs, remote, user, domain),
                       Collect(payloads[i + 1..], vs, remote, user, domain))
  {
    assert payloads[i..][0] == payloads[i];
    assert payloads[i..][1..] == payloads[i + 1..];
  }

  /** The message ids one turn reads again from the service. */
  function StepIds(step: Step): (ids: seq<int>)
    ensures step.Skipped? ==> ids == []
    ensures step.Kept? ==> ids == [step.message.id]
    ensures step.Raised? ==> ids == step.ids
  {
    match step
    case Raised(_, ids) => ids
    case Skipped => []
    case Kept(m) => [m.id]
  }

  /** The loop invariant of `get_messages` carried over one turn: what was
      kept and read before the turn, followed by the turn and the later
      turns, is the whole run; the turn either ends the run or adds its
      message and its read to what was kept and read. */
  lemma StepAdvance(step: Step, values: seq<Message>, readIds: seq<int>, rest: Run)
    ensures var whole := Prepend(values, readIds, StepRun(step, rest));
      && (step.Raised? ==> whole == Run(Failure(step.error), readIds + StepIds(step)))
      && (step.Skipped? ==> whole == Prepend(values, readIds + StepIds(step), rest))
      && (step.Kept? ==> whole == Prepend(values + [step.message], readIds + StepIds(step), rest))
  {
    if step.Kept? {
      PrependPrepend(values, readIds, [step.message], [step.message.id], rest);
    } else if step.Skipped? {
      assert readIds + [] == readIds;
    }
  }

  lemma ReadRequestsAppend(user: string, domain: string, ids1: seq<int>, ids2: seq<int>)
    ensures ReadRequests(user, domain, ids1 + ids2)
            == ReadRequests(user, domain, ids1) + ReadRequests(user, domain, ids2)
  {
  }

  /** `get_messages(validators)`: list the mailbox, then run the loop. */
  function GetMessagesRun(remote: Remote, user: string, domain: string, vs: seq<Validator>): (run: Run)
    ensures !remote.listing(user, domain).Ok? ==> run.result.Failure? && run.readIds == []
    ensures remote.listing(user, domain).HttpStatus? ==>
            run.result == Failure(HttpError(remote.listing(user, domain).status))
    ensures remote.listing(user, domain).NotJson? ==> run.result == Failure(MessageListError)
    ensures remote.listing(user, domain).Ok? ==>
            |run.readIds| <= |remote.listing(user, domain).body|
  {
    match remote.listing(user, domain)
    case HttpStatus(status) => Run(Failure(HttpError(status)), [])
    case NotJson(_) => Run(Failure(MessageListError), [])
    case Ok(payloads) =>
      CollectCounts(payloads, vs, remote, user, domain);
      Collect(payloads, vs, remote, user, domain)
  }

  /** Keeps, in order, the messages every validator accepts. */
  function Filter(vs: seq<Validator>, ms: seq<Message>): (kept: seq<Message>)
    ensures |kept| <= |ms|
  {
    if ms == [] then []
    else (if AllPass(vs, ms[0]) then [ms[0]] else []) + Filter(vs, ms[1..])
  }

  /** The filter keeps exactly the messages every validator accepts. */
  lemma {:induction false} FilterMembers(vs: seq<Validator>, ms: seq<Message>, m: Message)
    ensures m in Filter(vs, ms) <==> m in ms && AllPass(vs, m)
  {
    if ms != [] {
      FilterMembers(vs, ms[1..], m);
      assert m in ms <==> m == ms[0] || m in ms[1..];
    }
  }

  /** Filtering respects order: the filter of a concatenation is the
      concatenation of the filters. */
  lemma {:induction false} FilterAppend(vs: seq<Validator>, a: seq<Message>, b: seq<Message>)
    ensures Filter(vs, a + b) == Filter(vs, a) + Filter(vs, b)
  {
    if a != [] {
      assert (a + b)[0] == a[0] && (a + b)[1..] == a[1..] + b;
      FilterAppend(vs, a[1..], b);
      var head := if AllPass(vs, a[0]) then [a[0]] else [];
      calc {
        Filter(vs, a + b);
        head + Filter(vs, a[1..] + b);
        head + (Filter(vs, a[1..]) + Filter(vs, b));
        (head + Filter(vs, a[1..])) + Filter(vs, b);
        Filter(vs, a) + Filter(vs, b);
      }
    } else {
      assert a + b == b;
    }
  }

  /** With no validators nothing is filtered out. */
  lemma {:induction false} FilterNoValidators(ms: seq<Message>)
    ensures Filter([], ms) == ms
  {
    if ms != [] {
      FilterNoValidators(ms[1..]);
    }
  }

  /** Every payload of the list becomes a message. */
  predicate AllBuild(payloads: seq<Payload>, address: string) {
    forall i :: 0 <= i < |payloads| ==> FromDict(Listed(payloads[i], address)).Success?
  }

  /** The messages the payloads describe, each addressed to the mailbox. */
  function Built(payloads: seq<Payload>, address: string): (ms: seq<Message>)
    requires AllBuild(payloads, address)
    ensures |ms| == |payloads|
    ensures forall i :: 0 <= i < |ms| ==> ms[i] == FromDict(Listed(payloads[i], address)).value
    ensures forall i :: 0 <= i < |ms| ==> ms[i].toAddress == address && ms[i].id == payloads[i].id.value
  {
    seq(|payloads|, i requires 0 <= i < |payloads| => FromDict(Listed(payloads[i], address)).value)
  }

  function Ids(ms: seq<Message>): (ids: seq<int>)
    ensures |ids| == |ms| && forall i :: 0 <= i < |ms| ==> ids[i] == ms[i].id
  {
    seq(|ms|, i requires 0 <= i < |ms| => ms[i].id)
  }

  /** Each kept message, refreshed from its own read reply. */
  predicate RefreshedFrom(result: seq<Message>, kept: seq<Message>, remote: Remote,
                          user: string, domain: string) {
    && |result| == |kept|
    && forall k :: 0 <= k < |kept| ==>
         && ReadPayload(remote, user, domain, kept[k].id).Success?
         && result[k] == Refreshed(kept[k], ReadPayload(remote, user, domain, kept[k].id).value)
  }

  lemma BuiltCons(payloads: seq<Payload>, address: string)
    requires payloads != [] && FromDict(Listed(payloads[0], address)).Success?
    requires AllBuild(payloads[1..], address)
    ensures AllBuild(payloads, address)
    ensures Built(payloads, address) ==
            [FromDict(Listed(payloads[0], address)).value] + Built(payloads[1..], address)
  {
    forall i | 0 < i < |payloads|
      ensures FromDict(Listed(payloads[i], address)).Success?
    {
      assert payloads[i] == payloads[1..][i - 1];
    }
  }

  lemma RefreshedFromCons(m: Message, result: seq<Message>, kept: seq<Message>, remote: Remote,
                          user: string, domain: string)
    requires RefreshedFrom(result, kept, remote, user, domain)
    requires ReadPayload(remote, user, domain, m.id).Success?
    ensures RefreshedFrom([Refreshed(m, ReadPayload(remote, user, domain, m.id).value)] + result,
                          [m] + kept, remote, user, domain)
    ensures Ids([m] + kept) == [m.id] + Ids(kept)
  {
  }

  /** One step of a run that returns: the head payload built, and either it
      was filtered out or it was read, refreshed and kept. */
  lemma CollectStep(payloads: seq<Payload>, vs: seq<Validator>, remote: Remote,
                    user: string, domain: string)
    requires payloads != []
    requires Collect(payloads, vs, remote, user, domain).result.Success?
    ensures FromDict(Listed(payloads[0], Address(user, domain))).Success?
    ensures Collect(payloads[1..], vs, remote, user, domain).result.Success?
    ensures var m := FromDict(Listed(payloads[0], Address(user, domain))).value;
            var rest := Collect(payloads[1..], vs, remote, user, domain);
            if AllPass(vs, m) then
              && ReadPayload(remote, user, domain, m.id).Success?
              && Collect(payloads, vs, remote, user, domain) ==
                 Prepend([Refreshed(m, ReadPayload(remote, user, domain, m.id).value)], [m.id], rest)
            else Collect(payloads, vs, remote, user, domain) == rest
  {
  }

  lemma FilterCons(vs: seq<Validator>, ms: seq<Message>, m: Message, tail: seq<Message>)
    requires ms == [m] + tail
    ensures Filter(vs, ms) == (if AllPass(vs, m) then [m] else []) + Filter(vs, tail)
  {
    assert ms[1..] == tail;
  }

  /** A run that returns is "build all, filter, then refresh each survivor":
      every payload built, the result is the filtered messages in their
      order, each refreshed from one read of its own id, and the service was
      read exactly for the returned messages, once each, in order. */
  lemma {:induction false} CollectIsFilterThenRefresh(payloads: seq<Payload>, vs: seq<Validator>,
                                                      remote: Remote, user: string, domain: string)
    requires Collect(payloads, vs, remote, user, domain).result.Success?
    ensures AllBuild(payloads, Address(user, domain))
    ensures var run := Collect(payloads, vs, remote, user, domain);
            var kept := Filter(vs, Built(payloads, Address(user, domain)));
            && RefreshedFrom(run.result.value, kept, remote, user, domain)
            && run.readIds == Ids(kept)
    decreases |payloads|
  {
    var address := Address(user, domain);
    if payloads != [] {
      var tail := payloads[1..];
      CollectStep(payloads, vs, remote, user, domain);
      var rest := Collect(tail, vs, remote, user, domain);
      var m := FromDict(Listed(payloads[0], address)).value;
      CollectIsFilterThenRefresh(tail, vs, remote, user, domain);
      BuiltCons(payloads, address);
      var keptTail := Filter(vs, Built(tail, address));
      var kept := Filter(vs, Built(payloads, address));
      FilterCons(vs, Built(payloads, address), m, Built(tail, address));
      if AllPass(vs, m) {
        var full := ReadPayload(remote, user, domain, m.id).value;
        assert kept == [m] + keptTail;
        RefreshedFromCons(m, rest.result.value, keptTail, remote, user, domain);
        assert Collect(payloads, vs, remote, user, domain)
               == Run(Success([Refreshed(m, full)] + rest.result.value), [m.id] + rest.readIds);
      } else {
        assert kept == keptTail;
        assert Collect(payloads, vs, remote, user, domain) == rest;
      }
    }
  }

  /** A message the filter keeps is one of the built messages: addressed to
      the mailbox, with the id of one of the payloads. */
  lemma KeptFromPayloads(vs: seq<Validator>, payloads: seq<Payload>, address: string, m: Message)
    requires AllBuild(payloads, address)
    requires m in Filter(vs, Built(payloads, address))
    ensures m.toAddress == address && exists i :: 0 <= i < |payloads| && payloads[i].id == Some(m.id)
  {
    var built := Built(payloads, address);
    FilterMembers(vs, built, m);
    var i :| 0 <= i < |built| && built[i] == m;
    assert payloads[i].id == Some(m.id);
  }

  /** Every message a run returns is addressed to the mailbox and keeps the
      identity its payload gave it. */
  lemma CollectAddressed(payloads: seq<Payload>, vs: seq<Validator>,
                         remote: Remote, user: string, domain: string)
    requires Collect(payloads, vs, remote, user, domain).result.Success?
    ensures forall m :: m in Collect(payloads, vs, remote, user, domain).result.value ==>
      m.toAddress == Address(user, domain) && exists i :: 0 <= i < |payloads| && payloads[i].id == Some(m.id)
  {
    CollectIsFilterThenRefresh(payloads, vs, remote, user, domain);
    var address := Address(user, domain);
    var kept := Filter(vs, Built(payloads, address));
    var result := Collect(payloads, vs, remote, user, domain).result.value;
    forall m | m in result
      ensures m.toAddress == address && exists i :: 0 <= i < |payloads| && payloads[i].id == Some(m.id)
    {
      var k :| 0 <= k < |result| && result[k] == m;
      assert m.toAddress == kept[k].toAddress && m.id == kept[k].id;
      KeptFromPayloads(vs, payloads, address, kept[k]);
    }
  }

  /** Every message the filter keeps can be read again from the service. */
  predicate KeptReadable(vs: seq<Validator>, ms: seq<Message>, remote: Remote, user: string, domain: string) {
    forall m :: m in Filter(vs, ms) ==> ReadPayload(remote, user, domain, m.id).Success?
  }

  /** A run returns when every payload builds and every message the filter
      keeps reads successfully. */
  lemma {:induction false} CollectReturns(payloads: seq<Payload>, vs: seq<Validator>,
                                          remote: Remote, user: string, domain: string)
    requires AllBuild(payloads, Address(user, domain))
    requires KeptReadable(vs, Built(payloads, Address(user, domain)), remote, user, domain)
    ensures Collect(payloads, vs, remote, user, domain).result.Success?
    decreases |payloads|
  {
    var address := Address(user, domain);
    if payloads != [] {
      var tail := payloads[1..];
      forall i | 0 <= i < |tail|
        ensures FromDict(Listed(tail[i], address)).Success?
      {
        assert tail[i] == payloads[i + 1];
      }
      BuiltCons(payloads, address);
      var m := FromDict(Listed(payloads[0], address)).value;
      FilterCons(vs, Built(payloads, address), m, Built(tail, address));
      var head := if AllPass(vs, m) then [m] else [];
      assert Filter(vs, Built(payloads, address)) == head + Filter(vs, Built(tail, address));
      CollectReturns(tail, vs, remote, user, domain);
      if AllPass(vs, m) {
        assert m in Filter(vs, Built(payloads, address));
      }
    }
  }

  /** A run returns exactly when every payload builds and every message the
      filter keeps reads successfully; otherwise it raises. */
  lemma CollectSucceeds(payloads: seq<Payload>, vs: seq<Validator>,
                        remote: Remote, user: string, domain: string)
    ensures Collect(payloads, vs, remote, user, domain).result.Success? <==>
      && AllBuild(payloads, Address(user, domain))
      && KeptReadable(vs, Built(payloads, Address(user, domain)), remote, user, domain)
  {
    if Collect(payloads, vs, remote, user, domain).result.Success? {
      CollectIsFilterThenRefresh(payloads, vs, remote, user, domain);
      var kept := Filter(vs, Built(payloads, Address(user, domain)));
      forall m | m in kept
        ensures ReadPayload(remote, user, domain, m.id).Success?
      {
        var k :| 0 <= k < |kept| && kept[k] == m;
      }
    } else if AllBuild(payloads, Address(user, domain))
              && KeptReadable(vs, Built(payloads, Address(user, domain)), remote, user, domain) {
      CollectReturns(payloads, vs, remote, user, domain);
    }
  }

  /** With no validators, and every message readable, the run returns every
      payload's message in list order, each refreshed from its own read,
      and reads each of them once. */
  lemma CollectNoValidators(payloads: seq<Payload>, remote: Remote, user: string, domain: string)
    requires AllBuild(payloads, Address(user, domain))
    requires forall m :: m in Built(payloads, Address(user, domain)) ==>
               ReadPayload(remote, user, domain, m.id).Success?
    ensures var run := Collect(payloads, [], remote, user, domain);
            && run.result.Success?
            && |run.result.value| == |payloads|
            && (forall i :: 0 <= i < |payloads| ==> payloads[i].id == Some(run.result.value[i].id))
            && RefreshedFrom(run.result.value, Built(payloads, Address(user, domain)), remote, user, domain)
            && run.readIds == Ids(Built(payloads, Address(user, domain)))
  {
    FilterNoValidators(Built(payloads, Address(user, domain)));
    CollectReturns(payloads, [], remote, user, domain);
    CollectIsFilterThenRefresh(payloads, [], remote, user, domain);
  }

  /** Payload `data` ended the run after the reads `before`: it failed to
      build, raising that error, or it passed the validators and its read
      failed, raising the read's error after that read. */
  predicate RaisedWith(data: Payload, vs: seq<Validator>, remote: Remote, user: string, domain: string,
                       before: seq<int>, run: Run)
  {
    match FromDict(Listed(data, Address(user, domain)))
    case Failure(e) => run == Run(Failure(e), before)
    case Success(m) =>
      && AllPass(vs, m) && ReadPayload(remote, user, domain, m.id).Failure?
      && run == Run(Failure(ReadPayload(remote, user, domain, m.id).error), before + [m.id])
  }

  /** Reads made before a raising payload stay in front of its reads. */
  lemma RaisedWithPrepend(data: Payload, vs: seq<Validator>, remote: Remote, user: string, domain: string,
                          ids: seq<int>, before: seq<int>, run: Run)
    requires RaisedWith(data, vs, remote, user, domain, before, run)
    ensures RaisedWith(data, vs, remote, user, domain, ids + before, Run(run.result, ids + run.readIds))
  {
    var built := FromDict(Listed(data, Address(user, domain)));
    if built.Success? {
      assert ids + before + [built.value.id] == ids + (before + [built.value.id]);
    }
  }

  /** The run raised at payload `k`: the payloads before it all built, every
      one of them the filter kept was read successfully, in order, and
      payload `k` raised after those reads. */
  predicate RaisesAt(payloads: seq<Payload>, vs: seq<Validator>, remote: Remote,
                     user: string, domain: string, k: nat, run: Run)
  {
    && k < |payloads|
    && AllBuild(payloads[..k], Address(user, domain))
    && KeptReadable(vs, Built(payloads[..k], Address(user, domain)), remote, user, domain)
    && RaisedWith(payloads[k], vs, remote, user, domain,
                  Ids(Filter(vs, Built(payloads[..k], Address(user, domain)))), run)
  }

  lemma IdsCons(m: Message, ms: seq<Message>)
    ensures Ids([m] + ms) == [m.id] + Ids(ms)
  {
  }

  /** The first `k + 1` payloads are the head followed by the first `k` of
      the tail, and they build when the head and those of the tail do. */
  lemma PrefixCons(payloads: seq<Payload>, address: string, k: nat)
    requires payloads != [] && FromDict(Listed(payloads[0], address)).Success?
    requires k < |payloads| - 1 && AllBuild(payloads[1..][..k], address)
    ensures AllBuild(payloads[..k + 1], address)
    ensures Built(payloads[..k + 1], address)
            == [FromDict(Listed(payloads[0], address)).value] + Built(payloads[1..][..k], address)
    ensures payloads[k + 1] == payloads[1..][k]
  {
    var prefix := payloads[..k + 1];
    assert prefix[0] == payloads[0] && prefix[1..] == payloads[1..][..k];
    BuiltCons(prefix, address);
  }

  /** Raising at payload `k` of the tail is raising at payload `k + 1` of the
      whole list, when the head built and was either rejected or kept and
      read. */
  lemma RaisesAtShift(payloads: seq<Payload>, vs: seq<Validator>, remote: Remote,
                      user: string, domain: string, k: nat, rest: Run, run: Run)
    requires payloads != [] && FromDict(Listed(payloads[0], Address(user, domain))).Success?
    requires RaisesAt(payloads[1..], vs, remote, user, domain, k, rest)
    requires var m := FromDict(Listed(payloads[0], Address(user, domain))).value;
      || (!AllPass(vs, m) && run == rest)
      || (&& AllPass(vs, m) && ReadPayload(remote, user, domain, m.id).Success?
          && run == Run(rest.result, [m.id] + rest.readIds))
    ensures RaisesAt(payloads, vs, remote, user, domain, k + 1, run)
  {
    var address := Address(user, domain);
    var m := FromDict(Listed(payloads[0], address)).value;
    var prefix := payloads[..k + 1];
    var tailPrefix := payloads[1..][..k];
    PrefixCons(payloads, address, k);
    FilterCons(vs, Built(prefix, address), m, Built(tailPrefix, address));
    var keptTail := Filter(vs, Built(tailPrefix, address));
    if AllPass(vs, m) {
      assert Filter(vs, Built(prefix, address)) == [m] + keptTail;
      IdsCons(m, keptTail);
      RaisedWithPrepend(payloads[k + 1], vs, remote, user, domain, [m.id], Ids(keptTail), rest);
    } else {
      assert Filter(vs, Built(prefix, address)) == keptTail;
    }
  }

  /** A run that raises raised at one payload: all the payloads before it
      built and the kept ones among them were read, in order, and that
      payload's build error or read error is what the run raises. */
  lemma {:induction false} CollectRaises(payloads: seq<Payload>, vs: seq<Validator>,
                                         remote: Remote, user: string, domain: string)
    requires Collect(payloads, vs, remote, user, domain).result.Failure?
    ensures exists k :: RaisesAt(payloads, vs, remote, user, domain, k, Collect(payloads, vs, remote, user, domain))
    decreases |payloads|
  {
    var address := Address(user, domain);
    var run := Collect(payloads, vs, remote, user, domain);
    assert payloads != [];
    assert payloads[..0] == [];
    var tail := payloads[1..];
    var rest := Collect(tail, vs, remote, user, domain);
    assert run == StepRun(StepOf(payloads[0], vs, remote, user, domain), rest);
    var built := FromDict(Listed(payloads[0], address));
    if built.Failure? {
      assert RaisesAt(payloads, vs, remote, user, domain, 0, run);
    } else {
      var m := built.value;
      if AllPass(vs, m) && ReadPayload(remote, user, domain, m.id).Failure? {
        assert [] + [m.id] == [m.id];
        assert RaisesAt(payloads, vs, remote, user, domain, 0, run);
      } else {
        assert rest.result.Failure?;
        CollectRaises(tail, vs, remote, user, domain);
        var k :| RaisesAt(tail, vs, remote, user, domain, k, rest);
        RaisesAtShift(payloads, vs, remote, user, domain, k, rest, run);
      }
    }
  }

  /** When the validators reject every message, nothing is read from the
      service and nothing is returned. */
  lemma {:induction false} CollectRejectAll(payloads: seq<Payload>, vs: seq<Validator>,
                                            remote: Remote, user: string, domain: string)
    requires forall i :: 0 <= i < |payloads| && FromDict(Listed(payloads[i], Address(user, domain))).Success?
               ==> !AllPass(vs, FromDict(Listed(payloads[i], Address(user, domain))).value)
    ensures Collect(payloads, vs, remote, user, domain).readIds == []
    ensures Collect(payloads, vs, remote, user, domain).result.Success? ==>
            Collect(payloads, vs, remote, user, domain).result.value == []
    decreases |payloads|
  {
    if payloads != [] {
      var tail := payloads[1..];
      forall i | 0 <= i < |tail| && FromDict(Listed(tail[i], Address(user, domain))).Success?
        ensures !AllPass(vs, FromDict(Listed(tail[i], Address(user, domain))).value)
      {
        assert tail[i] == payloads[i + 1];
      }
      CollectRejectAll(tail, vs, remote, user, domain);
    }
  }
}
