/** POST /sendEmails: read the recipients from the subscriber log, compute
    the rate, and queue one message to all recipients for sending in the
    background. */
module Mailing {
  import opened Common
  import opened Text
  import opened Registry
  import opened Rates

  /** `[line.strip() for line in db]`: every line of the log, stripped, in file order. */
  function Recipients(lines: seq<string>): (r: seq<string>)
    ensures |r| == |lines|
    ensures forall i :: 0 <= i < |lines| ==> r[i] == Strip(lines[i])
  {
    if lines == [] then [] else [Strip(lines[0])] + Recipients(lines[1..])
  }

  /** Appending a line to the log appends its stripped form to the recipients. */
  lemma RecipientsAppend(lines: seq<string>, line: string)
    ensures Recipients(lines + [line]) == Recipients(lines) + [Strip(line)]
  {
    var r, s := Recipients(lines + [line]), Recipients(lines) + [Strip(line)];
    assert |r| == |s|;
    forall i | 0 <= i < |r| ensures r[i] == s[i] {
      if i < |lines| {
        assert (lines + [line])[i] == lines[i];
      }
    }
  }

  /** The line a subscription writes comes back, stripped, as the last
      recipient; when the address has no surrounding whitespace it comes back
      unchanged. The other recipients are those of the log before. */
  lemma RecipientsAfterSubscribe(db: Option<seq<string>>, email: string)
    requires Register(db, email).reply == EmailAdded
    ensures Recipients(LinesOf(Register(db, email).db)) == Recipients(LinesOf(db)) + [Strip(email)]
    ensures email == [] || (!IsSpace(email[0]) && !IsSpace(email[|email| - 1])) ==>
              Recipients(LinesOf(Register(db, email).db))[|LinesOf(db)|] == email
  {
    assert LinesOf(Register(db, email).db) == LinesOf(db) + [email + "\n"];
    RecipientsAppend(LinesOf(db), email + "\n");
    StripLineTerminator(email);
    if email == [] || (!IsSpace(email[0]) && !IsSpace(email[|email| - 1])) {
      StripClean(email);
    }
  }

  const Subject: string := "Latest BTC rate"

  /** The message handed to the mail transport; `rate` is the value its body
      quotes. */
  datatype Message<Q> = Message(subject: string, recipients: seq<string>, rate: Q)

  /** What a call answered, which URLs it requested, and the message it queued, if any. */
  datatype SendReport<Q> = SendReport(reply: Reply, requests: seq<string>, queued: Option<Message<Q>>)

  /** A missing log file is the only reason to refuse with 405; an existing
      but empty log sends to nobody. The rate is awaited before the message is
      queued, so an upstream failure queues nothing. */
  method SendEmails<Q>(log: SubscriberLog, net: Network<Q>, mul: (Q, Q) -> Q) returns (report: SendReport<Q>)
    ensures log.db.None? ==> report == SendReport(NoSubscribersFile, [], None)
    ensures log.db.Some? ==> report.reply != NoSubscribersFile
    ensures StatusCode(report.reply) ==
              if log.db.None? then 405 else if report.queued.None? then 503 else 200
    ensures log.db.Some? && net(CoindeskUrl).status != 200 ==>
              report == SendReport(ThirdPartyUnavailable(CoindeskUrl), [CoindeskUrl], None)
    ensures log.db.Some? && net(CoindeskUrl).status == 200 && net(UsdRatesUrl).status != 200 ==>
              report == SendReport(ThirdPartyUnavailable(UsdRatesUrl), [CoindeskUrl, UsdRatesUrl], None)
    ensures report.queued.Some? <==>
              log.db.Some? && net(CoindeskUrl).status == 200 && net(UsdRatesUrl).status == 200
    ensures report.queued.Some? ==>
              && report.reply == EmailsSent
              && report.requests == [CoindeskUrl, UsdRatesUrl]
              && report.queued.value.subject == Subject
              && report.queued.value.recipients == Recipients(log.db.value)
              && report.queued.value.rate ==
                   mul(net(CoindeskUrl).json(BtcUsdPath), net(UsdRatesUrl).json(RatePath("UAH")))
  {
    if log.db.None? {
      return SendReport(NoSubscribersFile, [], None);
    }
    var recipients := Recipients(log.db.value);
    var rate := ReadBtcRate(net, mul);
    match rate.result {
      case Failure(e) =>
        report := SendReport(ThirdPartyUnavailable(e.url), rate.requests, None);
      case Success(v) =>
        report := SendReport(EmailsSent, rate.requests, Some(Message(Subject, recipients, v)));
    }
  }
}
