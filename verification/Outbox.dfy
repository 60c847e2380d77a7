/** The mailer's in-memory outbox: bounded, filled only by the log provider outside production. */
module Outbox {
  import opened Text

  const LIMIT: nat := 1000

  datatype MailKind = EmailVerification | PasswordReset | Notification | EmailOtp

  datatype Provider = Log | Ses | Resend

  datatype SentMail = SentMail(to: string, kind: MailKind, token: string, subject: Option<string>, sentAt: int)

  /** `push`, then `shift` if that made it too long. */
  function Push(outbox: seq<SentMail>, m: SentMail): seq<SentMail> {
    var longer := outbox + [m];
    if |longer| > LIMIT then longer[1..] else longer
  }

  predicate IsFor(m: SentMail, to: string, kind: MailKind) {
    m.to == to && m.kind == kind
  }

  datatype Op = Send(mail: SentMail) | Clear

  /** The outbox after a run of sends by the log provider outside production, and of clears. */
  function Run(ops: seq<Op>): seq<SentMail> {
    if ops == [] then []
    else match ops[|ops| - 1]
      case Send(m) => Push(Run(ops[..|ops| - 1]), m)
      case Clear => []
  }

  function LatestToken(outbox: seq<SentMail>, to: string, kind: MailKind): Option<string> {
    if outbox == [] then None
    else
      var m := outbox[|outbox| - 1];
      if IsFor(m, to, kind) then Some(m.token) else LatestToken(outbox[..|outbox| - 1], to, kind)
  }

  // --- Any run ------------------------------------------------------------------------

  /** The mails sent since the last clear. */
  function SinceClear(ops: seq<Op>): seq<SentMail> {
    if ops == [] then []
    else match ops[|ops| - 1]
      case Send(m) => SinceClear(ops[..|ops| - 1]) + [m]
      case Clear => []
  }

  function LastN(mails: seq<SentMail>, n: nat): seq<SentMail> {
    if |mails| <= n then mails else mails[|mails| - n..]
  }

  /** The outbox is the last 1000 mails since the last clear, or all of them. */
  lemma {:induction false} KeepsTheLast(ops: seq<Op>)
    ensures Run(ops) == LastN(SinceClear(ops), 1000)
  {
    if ops != [] { KeepsTheLast(ops[..|ops| - 1]); }
  }

  lemma {:induction false} LatestTokenMeans(mails: seq<SentMail>, to: string, kind: MailKind)
    ensures LatestToken(mails, to, kind) == None
            <==> forall i :: 0 <= i < |mails| ==> !(mails[i].to == to && mails[i].kind == kind)
    ensures forall i :: 0 <= i < |mails| && mails[i].to == to && mails[i].kind == kind
                        && (forall j :: i < j < |mails| ==> !(mails[j].to == to && mails[j].kind == kind))
                        ==> LatestToken(mails, to, kind) == Some(mails[i].token)
  {
    if mails != [] {
      var last := |mails| - 1;
      LatestTokenMeans(mails[..last], to, kind);
      assert forall i :: 0 <= i < last ==> mails[i] == mails[..last][i];
    }
  }

  /**
   If the i-th mail since the last clear is the latest match, its token is returned exactly when fewer
   than 1000 mails followed it; otherwise it has been dropped, and nothing is returned.
   */
  lemma TokenUntilDropped(ops: seq<Op>, to: string, kind: MailKind, i: nat)
    requires var sent := SinceClear(ops);
      && i < |sent| && sent[i].to == to && sent[i].kind == kind
      && forall j :: i < j < |sent| ==> !(sent[j].to == to && sent[j].kind == kind)
    ensures var sent := SinceClear(ops);
      LatestToken(Run(ops), to, kind) == if |sent| - i <= 1000 then Some(sent[i].token) else None
  {
    var sent := SinceClear(ops);
    KeepsTheLast(ops);
    var kept := Run(ops);
    var d := |sent| - |kept|;
    assert forall j :: 0 <= j < |kept| ==> kept[j] == sent[j + d];
    LatestTokenMeans(kept, to, kind);
    if i >= d { assert kept[i - d] == sent[i]; }
  }

  // --- The mailer ---------------------------------------------------------------------

  class Mailer {
    const isProd: bool
    var outbox: seq<SentMail>
    // The sends that reach the outbox, and the clears.
    ghost var history: seq<Op>

    ghost predicate Valid()
      reads this
    {
      outbox == Run(history)
    }

    constructor (isProd: bool)
      ensures this.isProd == isProd && history == [] && Valid()
    {
      this.isProd := isProd;
      outbox, history := [], [];
    }

    /** What the outbox holds after any calls. */
    lemma Promises(to: string, kind: MailKind)
      requires Valid()
      ensures outbox == LastN(SinceClear(history), 1000)
      ensures LatestToken(outbox, to, kind) == None
              <==> forall m :: m in LastN(SinceClear(history), 1000) ==> !(m.to == to && m.kind == kind)
    {
      KeepsTheLast(history);
      LatestTokenMeans(outbox, to, kind);
    }

    /** What remains of `dispatch` once the provider has answered. */
    method Dispatch(provider: Provider, to: string, kind: MailKind, token: string, now: int)
      requires Valid()
      modifies this
      ensures Valid()
      ensures history == old(history) + if provider.Log? && !isProd then [Send(SentMail(to, kind, token, None, now))]
                                        else []
      ensures outbox == if provider.Log? && !isProd then Push(old(outbox), SentMail(to, kind, token, None, now))
                        else old(outbox)
    {
      if provider.Log? {
        if !isProd {
          history := history + [Send(SentMail(to, kind, token, None, now))];
          outbox := outbox + [SentMail(to, kind, token, None, now)];
          if |outbox| > LIMIT { outbox := outbox[1..]; }
        }
      }
    }

    /** A notification carries its subject and no token. */
    method SendNotification(provider: Provider, to: string, subject: string, now: int) returns (delivery: Provider)
      requires Valid()
      modifies this
      ensures Valid() && delivery == provider
      ensures history == old(history) + if provider.Log? && !isProd
                                        then [Send(SentMail(to, Notification, "", Some(subject), now))] else []
      ensures outbox == if provider.Log? && !isProd then
                          Push(old(outbox), SentMail(to, Notification, "", Some(subject), now))
                        else old(outbox)
    {
      if provider.Log? && !isProd {
        history := history + [Send(SentMail(to, Notification, "", Some(subject), now))];
        outbox := outbox + [SentMail(to, Notification, "", Some(subject), now)];
        if |outbox| > LIMIT { outbox := outbox[1..]; }
      }
      delivery := provider;
    }

    /** The token of the latest retained mail of a kind to an address. */
    method LastTokenFor(to: string, kind: MailKind) returns (token: Option<string>)
      ensures token == LatestToken(outbox, to, kind)
    {
      var i := |outbox|;
      assert outbox[..i] == outbox;
      while i > 0
        invariant 0 <= i <= |outbox|
        invariant LatestToken(outbox, to, kind) == LatestToken(outbox[..i], to, kind)
      {
        i := i - 1;
        assert outbox[..i + 1][..i] == outbox[..i];
        if IsFor(outbox[i], to, kind) {
          return Some(outbox[i].token);
        }
      }
      return None;
    }

    method ClearOutbox()
      modifies this
      ensures Valid() && history == old(history) + [Clear] && outbox == []
    {
      outbox, history := [], history + [Clear];
    }
  }
}
