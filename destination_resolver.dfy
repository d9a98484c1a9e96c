/// `token_for_project` and `channel_for_project`
/// (lib/redmine_telegram_notifications/notifier.rb:124-148): where a
/// notification goes, chosen by an ordered fallback from the project's own
/// custom value to the plugin-wide setting.
module DestinationResolver {
  import opened RubyText
  import opened PluginSettings

  /** The project custom field that holds a per-project bot token. */
  const TokenFieldName := "Telegram BOT Token"
  /** The project custom field that holds a per-project channel. */
  const ChannelFieldName := "Telegram Channel"
  /** The channel name reserved for "do not notify". */
  const NoChannel := "-"

  /** A project as the resolver sees it: its custom values by field name.
      A field that is not defined, or has no value for this project, is
      absent; a value stored as nil is `None`. */
  datatype Project = Project(name: string, customValues: map<string, Option<string>>)

  /** `proj.custom_value_for(cf).value rescue nil`: any failed lookup is nil. */
  function CustomValue(p: Project, fieldName: string): (r: Option<string>)
    ensures fieldName !in p.customValues ==> r.None?
  {
    if fieldName in p.customValues then p.customValues[fieldName] else None
  }

  /** `candidates.find { |v| v.present? }`. */
  function FirstPresent(cands: seq<Option<string>>): (r: Option<string>)
    ensures r.None? <==> forall k :: 0 <= k < |cands| ==> !Present(cands[k])
    ensures r.Some? ==> Present(r) && (exists k :: 0 <= k < |cands| && cands[k] == r
                                        && forall j :: 0 <= j < k ==> !Present(cands[j]))
    decreases |cands|
  {
    if cands == [] then None
    else if Present(cands[0]) then cands[0]
    else
      var r := FirstPresent(cands[1..]);
      assert forall k :: 1 <= k < |cands| ==> cands[k] == cands[1..][k - 1];
      r
  }

  /** With two candidates: the first if present, else the second if present. */
  lemma FirstPresentPair(a: Option<string>, b: Option<string>)
    ensures FirstPresent([a, b]) == if Present(a) then a else if Present(b) then b else None
  {
    assert [a, b][1..] == [b];
    assert [b][1..] == [];
  }

  /** The shared fallback of both resolvers: nil for a blank (nil) project,
      else the first present of the project's value and the global one. */
  function Resolve(proj: Option<Project>, fieldName: string, global: Option<string>): Option<string> {
    match proj
    case None => None
    case Some(p) => FirstPresent([CustomValue(p, fieldName), global])
  }

  /** `token_for_project proj`. */
  function TokenForProject(proj: Option<Project>, settings: Settings): (r: Option<string>)
    ensures proj.None? ==> r.None?
    ensures r.Some? ==> Present(r)
    ensures proj.Some? && Present(CustomValue(proj.value, TokenFieldName)) ==>
              r == CustomValue(proj.value, TokenFieldName)
    ensures proj.Some? && !Present(CustomValue(proj.value, TokenFieldName)) ==>
              r == (if Present(settings.telegramBotToken) then settings.telegramBotToken else None)
  {
    match proj
    case None => Resolve(proj, TokenFieldName, settings.telegramBotToken)
    case Some(p) =>
      FirstPresentPair(CustomValue(p, TokenFieldName), settings.telegramBotToken);
      Resolve(proj, TokenFieldName, settings.telegramBotToken)
  }

  /** `channel_for_project proj`. */
  function ChannelForProject(proj: Option<Project>, settings: Settings): (r: Option<string>)
    ensures proj.None? ==> r.None?
    ensures r != Some(NoChannel)
    ensures r.Some? ==> Present(r)
  {
    var v := Resolve(proj, ChannelFieldName, settings.channel);
    if v.GetOr("") == NoChannel then None else v
  }

  // ---------------------------------------------------------------------------
  // Properties

  /** The project's own present value wins over the global one, which is
      used only when the project has none; nothing else is ever chosen. */
  lemma ChannelFallback(p: Project, settings: Settings)
    ensures var own := CustomValue(p, ChannelFieldName);
            var chosen := if Present(own) then own
                          else if Present(settings.channel) then settings.channel
                          else None;
            ChannelForProject(Some(p), settings) == (if chosen == Some(NoChannel) then None else chosen)
  {
    FirstPresentPair(CustomValue(p, ChannelFieldName), settings.channel);
  }

  /** A blank project is never notified. */
  lemma NoProjectNoChannel(settings: Settings)
    ensures ChannelForProject(None, settings) == None
    ensures TokenForProject(None, settings) == None
  {
  }

  /** A project-level "-" suppresses notification even when a global channel is set. */
  lemma ProjectDashSuppresses(p: Project, settings: Settings)
    requires CustomValue(p, ChannelFieldName) == Some(NoChannel)
    ensures ChannelForProject(Some(p), settings) == None
  {
    assert Present(Some(NoChannel)) by { assert !IsBlankChar(NoChannel[0]); }
  }

  /** A global "-" suppresses every project that has no channel of its own. */
  lemma GlobalDashSuppresses(p: Project, settings: Settings)
    requires !Present(CustomValue(p, ChannelFieldName))
    requires settings.channel == Some(NoChannel)
    ensures ChannelForProject(Some(p), settings) == None
  {
    assert Present(Some(NoChannel)) by { assert !IsBlankChar(NoChannel[0]); }
  }

  /** The token resolver knows no sentinel: a "-" token is returned as it is. */
  lemma TokenKeepsDash(p: Project, settings: Settings)
    requires CustomValue(p, TokenFieldName) == Some(NoChannel)
    ensures TokenForProject(Some(p), settings) == Some(NoChannel)
  {
    assert Present(Some(NoChannel)) by { assert !IsBlankChar(NoChannel[0]); }
  }

  /** The channel is the token's fallback with the "-" sentinel removed. */
  lemma ChannelIsSuppressedResolve(proj: Option<Project>, settings: Settings)
    ensures var v := Resolve(proj, ChannelFieldName, settings.channel);
            ChannelForProject(proj, settings) == (if v == Some(NoChannel) then None else v)
  {
    var v := Resolve(proj, ChannelFieldName, settings.channel);
    if v.None? {
      assert v.GetOr("") == "" != NoChannel;
    }
  }
}
