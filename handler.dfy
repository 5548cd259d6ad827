/**
  The decisions main.go makes around the mail decoder: the SMTP handler's
  choice of MQTT topic and payload (smtphandler) and the HELO filter on the
  peer's address (checkhello).

  The SMTP server, the MQTT client and the command-line flags are not
  modelled: the flags are a `Config` value, mail.ReadMessage, json.Marshal
  and sanitizeTopic are opaque functions in a `Services` value, and the one
  call to send2mqtt is returned as a recorded `Publish`.
 */
module Handler {
  import opened GoStrings
  import opened Mail

  /** What the SMTP server hands the handler for one message. */
  datatype Envelope = Envelope(sender: string, recipients: seq<string>, data: string)

  /** The fields of the MailJSON record, in the order main.go declares them. */
  datatype MailRecord = MailRecord(subject: string, sender: string, recipients: seq<string>, text: string, html: string)

  /** One call send2mqtt(topic, payload). */
  datatype Publish = Publish(topic: string, payload: string)

  /** The -json and -topic flags. */
  datatype Config = Config(json: bool, topic: string)

  /** The routines the handler calls and that are not modelled. */
  datatype Services = Services(
    codecs: Codecs,
    readMessage: string -> Option<Message>,
    marshal: MailRecord -> Option<string>,
    sanitizeTopic: string -> string)

  /** What one run of the handler does: the publishes it makes, and the error it returns. */
  datatype Handled = Handled(published: seq<Publish>, err: Option<string>)

  /**
    The MailJSON record: the subject, the envelope's sender and its
    recipients in their order, and the two bodies.
   */
  function RecordOf(env: Envelope, parsed: Parsed): (r: MailRecord)
    ensures r.subject == parsed.subject && r.sender == env.sender && r.recipients == env.recipients
    ensures r.text == parsed.text && r.html == parsed.html
  {
    MailRecord(parsed.subject, env.sender, env.recipients, parsed.text, parsed.html)
  }

  /**
    The topic and payload for a parsed message. In JSON mode the topic is
    the configured prefix alone and the payload is the marshalled record
    ("" when marshalling fails); otherwise the topic is the prefix followed
    by the sanitized subject and the payload is the plain-text body.
   */
  function Route(config: Config, services: Services, env: Envelope, parsed: Parsed): (p: Publish)
    ensures config.json ==> p.topic == config.topic
    ensures config.json ==> p.payload == (match services.marshal(RecordOf(env, parsed)) case Some(json) => json case None => "")
    ensures !config.json ==> p.topic == config.topic + services.sanitizeTopic(parsed.subject)
    ensures !config.json ==> p.payload == parsed.text
  {
    if config.json then
      var jsonb := match services.marshal(RecordOf(env, parsed)) case Some(json) => json case None => "";
      Publish(config.topic, jsonb)
    else
      Publish(config.topic + services.sanitizeTopic(parsed.subject), parsed.text)
  }

  /**
    smtphandler: a message that mail.ReadMessage cannot read, or whose
    parseMsg fails, is dropped; every other message is published exactly
    once. The handler returns no error on any path.
   */
  function SmtpHandler(config: Config, services: Services, env: Envelope): (h: Handled)
    ensures h.err == None
    ensures |h.published| <= 1
    ensures |h.published| == 1 <==>
      services.readMessage(env.data).Some? && ParseMsg(services.codecs, services.readMessage(env.data).value).Ok?
    ensures |h.published| == 1 ==>
      h.published[0] == Route(config, services, env, ParseMsg(services.codecs, services.readMessage(env.data).value).value)
  {
    match services.readMessage(env.data)
    case None => Handled([], None)
    case Some(msg) =>
      match ParseMsg(services.codecs, msg)
      case Err(_) => Handled([], None)
      case Ok(parsed) => Handled([Route(config, services, env, parsed)], None)
  }

  /** In JSON mode every published message goes to the same topic, whatever its subject. */
  lemma JsonTopicIgnoresSubject(config: Config, services: Services, e1: Envelope, e2: Envelope)
    requires config.json
    requires |SmtpHandler(config, services, e1).published| == 1 && |SmtpHandler(config, services, e2).published| == 1
    ensures SmtpHandler(config, services, e1).published[0].topic == SmtpHandler(config, services, e2).published[0].topic
  {
  }

  /**
    In raw mode a message that is not multipart is published with an empty
    payload: its body is never decoded.
   */
  lemma RawNonMultipartPublishesEmpty(config: Config, services: Services, env: Envelope)
    requires !config.json
    requires services.readMessage(env.data).Some?
    requires !ContentTypeOf(services.codecs, services.readMessage(env.data).value).failed
    requires !HasPrefix(ContentTypeOf(services.codecs, services.readMessage(env.data).value).mediaType, "multipart/")
    ensures SmtpHandler(config, services, env).published == [Publish(config.topic + services.sanitizeTopic(
      services.codecs.decodeHeader(HeaderGet(services.readMessage(env.data).value.header, "Subject")).value), "")]
  {
  }

  /** In raw mode the payload is the text slot alone: html, sender and recipients never reach it. */
  lemma RawPayloadIsText(config: Config, services: Services, e1: Envelope, e2: Envelope, p1: Parsed, p2: Parsed)
    requires !config.json && p1.text == p2.text
    ensures Route(config, services, e1, p1).payload == Route(config, services, e2, p2).payload
  {
  }

  /**
    checkhello: with an allow prefix set, a peer whose address does not
    start with it is denied, whatever the deny prefix; otherwise, with a
    deny prefix set, a peer whose address starts with it is denied; every
    other peer is accepted.
   */
  function CheckHello(allow: string, deny: string, addr: string): (err: Option<string>)
    ensures err.Some? ==> err.value == "Denied"
    ensures err.Some? <==> (allow != "" && !HasPrefix(addr, allow)) || (deny != "" && HasPrefix(addr, deny))
  {
    if allow != "" && !HasPrefix(addr, allow) then Some("Denied")
    else if deny != "" && HasPrefix(addr, deny) then Some("Denied")
    else None
  }

  /**
    The deny rule needs its guard: every address starts with "", so without
    it an empty deny prefix would deny every peer. With both prefixes empty
    every peer is accepted.
   */
  lemma EmptyFiltersAcceptEveryPeer(addr: string)
    ensures HasPrefix(addr, "")
    ensures CheckHello("", "", addr) == None
  {
  }

  /** With only a deny prefix set, every address that starts with it is denied. */
  lemma DenyPrefixDenies(deny: string, suffix: string)
    requires deny != ""
    ensures CheckHello("", deny, deny + suffix) == Some("Denied")
  {
    assert (deny + suffix)[..|deny|] == deny;
  }

  /** With only an allow prefix set, every address that starts with it is accepted. */
  lemma AllowPrefixAdmits(allow: string, suffix: string)
    requires allow != ""
    ensures CheckHello(allow, "", allow + suffix) == None
  {
    assert (allow + suffix)[..|allow|] == allow;
  }

  /** The allow rule is checked first: an address outside the allow prefix is denied whatever the deny prefix. */
  lemma AllowRuleOverridesDeny(allow: string, deny: string, addr: string)
    requires allow != "" && !HasPrefix(addr, allow)
    ensures CheckHello(allow, deny, addr) == CheckHello(allow, "", addr) == Some("Denied")
  {
  }

  /**
    The prefixes are compared as text, not as addresses: a deny prefix
    192.168.1.10 also denies 192.168.1.105, and an allow prefix 10.0.0.1
    lets 10.0.0.17 in.
   */
  lemma PrefixesAreTextual()
    ensures CheckHello("192.168.1.", "192.168.1.10", "192.168.1.105:25") == Some("Denied")
    ensures CheckHello("192.168.1.", "192.168.1.10", "192.168.1.20:25") == None
    ensures CheckHello("10.0.0.1", "", "10.0.0.17:25") == None
  {
    var peer := "192.168.1.20:25";
    assert peer[..12][10] != "192.168.1.10"[10];
  }
}
