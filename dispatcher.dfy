/// `speak` (lib/redmine_telegram_notifications/notifier.rb:5-44): the text
/// and parameters of a Telegram `sendMessage` request, and the retry
/// counter of the delivery thread.
module Dispatcher {
  import opened RubyText
  import opened PluginSettings
  import opened FieldMapper

  /** The attachment hash: an optional description and the fields. */
  datatype Attachment = Attachment(text: Option<string>, fields: seq<Field>)

  /** The `sendMessage` request: its URL and `params`. `chatId` is absent
      when no channel was given. */
  datatype Request = Request(
    url: string,
    chatId: Option<string>,
    parseMode: string,
    disableWebPagePreview: int,
    text: string)

  /** The exceptions the hooks let escape to Redmine. */
  datatype Failure =
    | TypeError      // `"<b>" + nil` in the field loop
    | NoMethodError  // `nil.empty?` on a nil issue description

  /** What one hook invocation does. */
  datatype Outcome = Skipped | Posted(request: Request) | Raised(failure: Failure)

  const ApiBase := "https://api.telegram.org/bot"
  const DescriptionHeader := "\r\n<b>Описание:</b> "

  /** The line one field adds to the message. */
  function FieldLine(title: string, value: string): string {
    "\r\n" + "<b>" + title + ":</b> " + value
  }

  /** All titles are present, so the field loop cannot raise. */
  predicate AllTitled(fields: seq<Field>) {
    forall k :: 0 <= k < |fields| ==> fields[k].title.Some?
  }

  /** The lines of `fields`, in order. */
  function FieldLines(fields: seq<Field>): string
    requires AllTitled(fields)
    decreases |fields|
  {
    if fields == [] then ""
    else
      var init := fields[..|fields| - 1];
      var last := fields[|fields| - 1];
      FieldLines(init) + FieldLine(last.title.value, last.value)
  }

  /** The request `speak` would send, with its token resolved: the given
      one, else the global setting; nil interpolates as "". */
  function SendUrl(token: Option<string>, settings: Settings): string {
    var tok := if token.Some? then token else settings.telegramBotToken;
    ApiBase + tok.GetOr("") + "/sendMessage"
  }

  /** What `speak msg, channel, attachment, token` does. */
  function SpeakSpec(msg: string, channel: Option<string>, attachment: Option<Attachment>,
                     token: Option<string>, settings: Settings): Outcome
  {
    match attachment
    case None => Posted(Request(SendUrl(token, settings), channel, "HTML", 1, msg))
    case Some(a) =>
      if !AllTitled(a.fields) then Raised(TypeError)
      else
        var head := if a.text.Some? then msg + DescriptionHeader + a.text.value else msg;
        Posted(Request(SendUrl(token, settings), channel, "HTML", 1, head + FieldLines(a.fields)))
  }

  /** The `for` loop of `speak`: one line per field is appended to `text`;
      a field without a title raises (nil is returned for the exception). */
  method AppendFields(text: string, fields: seq<Field>) returns (r: Option<string>)
    ensures r.Some? <==> AllTitled(fields)
    ensures r.Some? ==> r.value == text + FieldLines(fields)
  {
    var msg := text;
    for i := 0 to |fields|
      invariant AllTitled(fields[..i])
      invariant msg == text + FieldLines(fields[..i])
    {
      var f := fields[i];
      if f.title.None? {
        assert !AllTitled(fields);
        return None;
      }
      var done := fields[..i + 1];
      assert done[..i] == fields[..i] && done[i] == f;
      msg := msg + FieldLine(f.title.value, f.value);
    }
    assert fields[..|fields|] == fields;
    return Some(msg);
  }

  /** `speak`: the description, then the fields, are appended to the message. */
  method Speak(msg: string, channel: Option<string>, attachment: Option<Attachment>,
               token: Option<string>, settings: Settings) returns (out: Outcome)
    ensures out == SpeakSpec(msg, channel, attachment, token, settings)
  {
    var url := SendUrl(token, settings);
    var text := msg;
    if attachment.Some? {
      var a := attachment.value;
      if a.text.Some? {
        text := text + DescriptionHeader + a.text.value;
      }
      var full := AppendFields(text, a.fields);
      if full.None? {
        return Raised(TypeError);
      }
      text := full.value;
    }
    out := Posted(Request(url, channel, "HTML", 1, text));
  }

  // ---------------------------------------------------------------------------
  // Properties of the request

  /** Field lines of a concatenation are the concatenation of field lines. */
  lemma {:induction false} FieldLinesConcat(f: seq<Field>, g: seq<Field>)
    requires AllTitled(f) && AllTitled(g)
    ensures AllTitled(f + g)
    ensures FieldLines(f + g) == FieldLines(f) + FieldLines(g)
    decreases |g|
  {
    var fg := f + g;
    if g == [] {
      assert fg == f;
    } else {
      var init, last := g[..|g| - 1], g[|g| - 1];
      assert fg[..|fg| - 1] == f + init && fg[|fg| - 1] == last;
      assert AllTitled(f + init);
      FieldLinesConcat(f, init);
      var line := FieldLine(last.title.value, last.value);
      calc {
        FieldLines(fg);
        FieldLines(f + init) + line;
        FieldLines(f) + FieldLines(init) + line;
        FieldLines(f) + (FieldLines(init) + line);
        FieldLines(f) + FieldLines(g);
      }
    }
  }

  /** Every field contributes its own line, in list order. */
  lemma {:induction false} FieldLinesInOrder(fields: seq<Field>)
    requires AllTitled(fields)
    ensures fields == [] ==> FieldLines(fields) == ""
    ensures fields != [] ==>
              FieldLines(fields) == FieldLine(fields[0].title.value, fields[0].value) + FieldLines(fields[1..])
  {
    if fields != [] {
      assert fields == [fields[0]] + fields[1..];
      FieldLinesConcat([fields[0]], fields[1..]);
      assert [fields[0]][..0] == [];
    }
  }

  /** The request is always HTML without previews, addressed to the channel
      if one was given, at the API URL of the resolved token; the text starts
      with the message. */
  lemma SpeakRequest(msg: string, channel: Option<string>, attachment: Option<Attachment>,
                     token: Option<string>, settings: Settings)
    requires SpeakSpec(msg, channel, attachment, token, settings).Posted?
    ensures var q := SpeakSpec(msg, channel, attachment, token, settings).request;
            q.parseMode == "HTML" && q.disableWebPagePreview == 1 && q.chatId == channel
            && StartsWith(q.text, msg)
            && q.url == "https://api.telegram.org/bot" + (if token.Some? then token.value
                        else settings.telegramBotToken.GetOr("")) + "/sendMessage"
  {
    var q := SpeakSpec(msg, channel, attachment, token, settings).request;
    if attachment.Some? {
      var a := attachment.value;
      var head := if a.text.Some? then msg + DescriptionHeader + a.text.value else msg;
      assert q.text == head + FieldLines(a.fields);
      assert q.text[..|msg|] == msg by {
        if a.text.Some? {
          assert q.text == msg + (DescriptionHeader + a.text.value + FieldLines(a.fields));
        }
      }
    }
  }

  /** `speak` raises exactly when some field has no title. */
  lemma SpeakRaisesOnlyOnMissingTitle(msg: string, channel: Option<string>, attachment: Option<Attachment>,
                                     token: Option<string>, settings: Settings)
    ensures SpeakSpec(msg, channel, attachment, token, settings).Raised? <==>
              attachment.Some? && exists k :: 0 <= k < |attachment.value.fields| && attachment.value.fields[k].title.None?
    ensures !SpeakSpec(msg, channel, attachment, token, settings).Skipped?
  {
  }

  /** With an attachment whose fields all have titles, `speak` posts the
      message, the description block when there is one, and the field lines. */
  lemma SpeakAttachment(msg: string, channel: Option<string>, text: Option<string>, fields: seq<Field>,
                        token: Option<string>, settings: Settings)
    requires AllTitled(fields)
    ensures var desc := if text.Some? then DescriptionHeader + text.value else "";
            SpeakSpec(msg, channel, Some(Attachment(text, fields)), token, settings)
              == Posted(Request(SendUrl(token, settings), channel, "HTML", 1, msg + desc + FieldLines(fields)))
  {
    if text.Some? {
      assert msg + DescriptionHeader + text.value + FieldLines(fields)
          == msg + (DescriptionHeader + text.value) + FieldLines(fields);
    } else {
      assert msg + "" == msg;
    }
  }

  /** A description is announced by its header even when it is empty. */
  lemma SpeakWithDescription(msg: string, channel: Option<string>, text: string, fields: seq<Field>,
                             token: Option<string>, settings: Settings)
    requires AllTitled(fields)
    ensures SpeakSpec(msg, channel, Some(Attachment(Some(text), fields)), token, settings).request.text
              == msg + "\r\n<b>Описание:</b> " + text + FieldLines(fields)
  {
  }

  // ---------------------------------------------------------------------------
  // Delivery

  /** How many times the delivery thread posts before giving up. */
  const MaxAttempts := 5

  /** One attempt: an exception (connection refused, timeout, ...) or an
      HTTP response with its status code. */
  datatype Attempt = Failed | Responded(status: int)

  /** The delivery thread's `begin ... rescue ... retry` loop over the
      attempt outcomes `net(0)`, `net(1)`, ...: it stops at the first
      response, whatever its status, and after five failures. */
  method Deliver(net: nat -> Attempt) returns (attempts: nat, status: Option<int>)
    ensures 1 <= attempts <= MaxAttempts
    ensures forall k :: 0 <= k < attempts - 1 ==> net(k).Failed?
    ensures status.Some? <==> net(attempts - 1).Responded?
    ensures status.Some? ==> status.value == net(attempts - 1).status
    ensures status.None? ==> attempts == MaxAttempts
  {
    var retries := 0;
    while true
      invariant 0 <= retries < MaxAttempts
      invariant forall k :: 0 <= k < retries ==> net(k).Failed?
      decreases MaxAttempts - retries
    {
      var outcome := net(retries);
      if outcome.Responded? {
        return retries + 1, Some(outcome.status);
      }
      retries := retries + 1;
      if retries >= MaxAttempts {
        return retries, None;
      }
    }
  }
}
