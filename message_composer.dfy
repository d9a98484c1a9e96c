/// The two Redmine hooks, `controller_issues_new_after_save` and
/// `controller_issues_edit_after_save`
/// (lib/redmine_telegram_notifications/notifier.rb:46-100): whether a
/// notification is sent, and the message and attachment it carries.
module MessageComposer {
  import opened RubyText
  import opened PluginSettings
  import opened Escaper
  import opened MentionExtractor
  import opened DestinationResolver
  import opened FieldMapper
  import opened Dispatcher

  /** An issue as the hooks read it. The strings are the `to_s` renderings
      the code interpolates (nil renders as ""); `url` is `object_url issue`;
      `priorityId` is nil when the issue has no priority. */
  datatype Issue = Issue(
    project: Option<Project>,
    text: string,
    url: string,
    description: Option<string>,
    author: string,
    startDate: string,
    status: string,
    priority: string,
    assignedTo: string,
    priorityId: Option<int>,
    watchers: seq<string>)

  /** A journal: who changed the issue, the optional notes, the details. */
  datatype Journal = Journal(user: string, notes: Option<string>, details: seq<Detail>)

  /** The lowest priority id that is notified: `priority_id_add.to_i` when
      that setting is present, otherwise 1. */
  function PriorityThreshold(settings: Settings): int {
    if Present(settings.priorityIdAdd) then ToI(settings.priorityIdAdd.value) else 1
  }

  /** `issue.priority_id.to_i >= priority_id`. */
  predicate PriorityPasses(issue: Issue, settings: Settings) {
    issue.priorityId.GetOr(0) >= PriorityThreshold(settings)
  }

  /** The interpolated `mentions text if auto_mentions == '1'`. */
  function MentionPart(text: Option<string>, settings: Settings): string {
    if settings.autoMentions == Some("1") then Mentions(text).GetOr("") else ""
  }

  /** The first two lines both hooks share: project, and the issue link. */
  function Heading(p: Project, issue: Issue, mention: string): string {
    "<b>Проект: " + Escape(p.name) + "</b>\n<a href='" + issue.url + "'>" + Escape(issue.text) + "</a> " + mention
  }

  function CreatedMessage(p: Project, issue: Issue, settings: Settings, h: Host): string {
    Heading(p, issue, MentionPart(issue.description, settings))
      + "\n<b>" + h.t("field_created_on") + ":</b> " + Escape(issue.author)
      + "\n<b>Дата начала:</b> " + issue.startDate
  }

  function EditedMessage(p: Project, issue: Issue, journal: Journal, settings: Settings, h: Host): string {
    Heading(p, issue, MentionPart(journal.notes, settings))
      + "\n<b>" + h.t("field_updated_on") + ":</b> " + journal.user
      + "\n<b>Приоритет:</b> " + Escape(issue.priority)
  }

  /** The fields of a new issue's notification. */
  function CreatedFields(issue: Issue, settings: Settings, h: Host): seq<Field> {
    [Field(Some(h.t("field_status")), Escape(issue.status), true),
     Field(Some(h.t("field_priority")), Escape(issue.priority), true),
     Field(Some(h.t("field_assigned_to")), Escape(issue.assignedTo), true)]
    + if settings.displayWatchers == Some("yes")
      then [Field(Some(h.t("field_watcher")), Escape(Join(issue.watchers, ", ")), true)]
      else []
  }

  /** The description a new issue's notification carries: only a non-empty
      one, and only when `new_include_description` is set at all. */
  function CreatedText(description: string, settings: Settings): Option<string> {
    if description != "" && settings.newIncludeDescription.Some? then Some(Escape(description)) else None
  }

  /** `journal.details.map { |d| detail_to_field d }`. */
  function DetailFields(details: seq<Detail>, h: Host): (r: seq<Field>)
    ensures |r| == |details|
    ensures forall k :: 0 <= k < |r| ==> r[k] == DetailToField(details[k], h)
  {
    seq(|details|, k requires 0 <= k < |details| => DetailToField(details[k], h))
  }

  /** What `controller_issues_new_after_save` does. */
  function IssueCreatedSpec(issue: Issue, settings: Settings, h: Host): Outcome {
    var channel := ChannelForProject(issue.project, settings);
    if channel.None? then Skipped
    else if issue.description.None? then Raised(NoMethodError)
    else if !PriorityPasses(issue, settings) then Skipped
    else
      var msg := CreatedMessage(issue.project.value, issue, settings, h);
      var a := Attachment(CreatedText(issue.description.value, settings), CreatedFields(issue, settings, h));
      SpeakSpec(msg, channel, Some(a), TokenForProject(issue.project, settings), settings)
  }

  /** What `controller_issues_edit_after_save` does. */
  function IssueEditedSpec(issue: Issue, journal: Journal, settings: Settings, h: Host): Outcome {
    var channel := ChannelForProject(issue.project, settings);
    if channel.None? || settings.postUpdates != Some("1") || !PriorityPasses(issue, settings) then Skipped
    else
      var msg := EditedMessage(issue.project.value, issue, journal, settings, h);
      var text := if journal.notes.Some? then Some(Escape(journal.notes.value)) else None;
      var a := Attachment(text, DetailFields(journal.details, h));
      SpeakSpec(msg, channel, Some(a), TokenForProject(issue.project, settings), settings)
  }

  /** `controller_issues_new_after_save`: the field list is built and then
      grown by the watchers field. */
  method IssueCreated(issue: Issue, settings: Settings, h: Host) returns (out: Outcome)
    ensures out == IssueCreatedSpec(issue, settings, h)
  {
    var channel := ChannelForProject(issue.project, settings);
    var token := TokenForProject(issue.project, settings);
    if channel.None? {
      return Skipped;
    }
    var msg := CreatedMessage(issue.project.value, issue, settings, h);
    if issue.description.None? {
      return Raised(NoMethodError);
    }
    var fields := [Field(Some(h.t("field_status")), Escape(issue.status), true),
                   Field(Some(h.t("field_priority")), Escape(issue.priority), true),
                   Field(Some(h.t("field_assigned_to")), Escape(issue.assignedTo), true)];
    if settings.displayWatchers == Some("yes") {
      fields := fields + [Field(Some(h.t("field_watcher")), Escape(Join(issue.watchers, ", ")), true)];
    }
    assert fields == CreatedFields(issue, settings, h);
    var a := Attachment(CreatedText(issue.description.value, settings), fields);
    if PriorityPasses(issue, settings) {
      out := Speak(msg, channel, Some(a), token, settings);
    } else {
      out := Skipped;
    }
  }

  /** `controller_issues_edit_after_save`. */
  method IssueEdited(issue: Issue, journal: Journal, settings: Settings, h: Host) returns (out: Outcome)
    ensures out == IssueEditedSpec(issue, journal, settings, h)
  {
    var channel := ChannelForProject(issue.project, settings);
    var token := TokenForProject(issue.project, settings);
    if channel.None? || settings.postUpdates != Some("1") {
      return Skipped;
    }
    var msg := EditedMessage(issue.project.value, issue, journal, settings, h);
    var text := None;
    if journal.notes.Some? {
      text := Some(Escape(journal.notes.value));
    }
    var a := Attachment(text, DetailFields(journal.details, h));
    if PriorityPasses(issue, settings) {
      out := Speak(msg, channel, Some(a), token, settings);
    } else {
      out := Skipped;
    }
  }

  // ---------------------------------------------------------------------------
  // Gating

  /** A new issue is announced exactly when a channel resolves, its
      description is not nil and its priority reaches the threshold; a nil
      description raises once a channel resolves, whatever the priority. */
  lemma CreatedGating(issue: Issue, settings: Settings, h: Host)
    ensures var channel := ChannelForProject(issue.project, settings);
            var out := IssueCreatedSpec(issue, settings, h);
            && (out.Posted? <==> channel.Some? && issue.description.Some? && PriorityPasses(issue, settings))
            && (out.Raised? <==> channel.Some? && issue.description.None?)
            && (out.Raised? ==> out.failure == NoMethodError)
  {
    var fields := CreatedFields(issue, settings, h);
    assert AllTitled(fields);
  }

  /** An update is announced exactly when a channel resolves, `post_updates`
      is "1", the priority reaches the threshold and every changed custom
      field still exists; a deleted custom field makes the hook raise. */
  lemma EditedGating(issue: Issue, journal: Journal, settings: Settings, h: Host)
    ensures var channel := ChannelForProject(issue.project, settings);
            var out := IssueEditedSpec(issue, journal, settings, h);
            var passes := channel.Some? && settings.postUpdates == Some("1") && PriorityPasses(issue, settings);
            var lost := exists k :: 0 <= k < |journal.details| && journal.details[k].property == "cf"
                                    && journal.details[k].propKey !in h.customFieldNames;
            && (out.Skipped? <==> !passes)
            && (out.Raised? <==> passes && lost)
            && (out.Raised? ==> out.failure == TypeError)
  {
    var fields := DetailFields(journal.details, h);
    var lost := exists k :: 0 <= k < |journal.details| && journal.details[k].property == "cf"
                            && journal.details[k].propKey !in h.customFieldNames;
    if lost {
      var k :| 0 <= k < |journal.details| && journal.details[k].property == "cf"
               && journal.details[k].propKey !in h.customFieldNames;
      assert fields[k].title.None?;
    } else {
      forall k | 0 <= k < |fields| ensures fields[k].title.Some? {
        assert fields[k] == DetailToField(journal.details[k], h);
      }
    }
  }

  /** A project whose own channel is "-" is never notified, whatever the
      global channel. */
  lemma DashProjectIsSilent(issue: Issue, journal: Journal, settings: Settings, h: Host)
    requires issue.project.Some? && CustomValue(issue.project.value, ChannelFieldName) == Some(NoChannel)
    ensures IssueCreatedSpec(issue, settings, h) == Skipped
    ensures IssueEditedSpec(issue, journal, settings, h) == Skipped
  {
    ProjectDashSuppresses(issue.project.value, settings);
  }

  /** The threshold is 1 unless set, and a set number is read as written. */
  lemma ThresholdReadsSetting(settings: Settings, n: nat)
    ensures !Present(settings.priorityIdAdd) ==> PriorityThreshold(settings) == 1
    ensures settings.priorityIdAdd == Some(Show(n)) ==> PriorityThreshold(settings) == n
  {
    if settings.priorityIdAdd == Some(Show(n)) {
      var s := Show(n);
      assert !IsBlankChar(s[0]);
      ToIShow(n);
    }
  }

  // ---------------------------------------------------------------------------
  // What is sent

  /** A new issue's fields are status, priority and assignee, and a
      watchers field exactly when `display_watchers` is "yes". */
  lemma CreatedFieldTitles(issue: Issue, settings: Settings, h: Host)
    ensures var f := CreatedFields(issue, settings, h);
            && (|f| == 4 <==> settings.displayWatchers == Some("yes"))
            && (|f| == 3 <==> settings.displayWatchers != Some("yes"))
            && f[0].title == Some(h.t("field_status")) && f[0].value == Escape(issue.status)
            && f[1].title == Some(h.t("field_priority")) && f[1].value == Escape(issue.priority)
            && f[2].title == Some(h.t("field_assigned_to")) && f[2].value == Escape(issue.assignedTo)
            && (|f| == 4 ==> (f[3].title == Some(h.t("field_watcher"))
                              && f[3].value == Escape(Join(issue.watchers, ", "))))
  {
  }

  /** The text of an announced new issue: the message, the description
      block when it is included, then one line per field. */
  lemma CreatedRequestText(issue: Issue, settings: Settings, h: Host)
    requires IssueCreatedSpec(issue, settings, h).Posted?
    ensures var q := IssueCreatedSpec(issue, settings, h).request;
            var msg := CreatedMessage(issue.project.value, issue, settings, h);
            var d := issue.description.value;
            var desc := if d != "" && settings.newIncludeDescription.Some?
                        then "\r\n<b>Описание:</b> " + Escape(d) else "";
            && q.chatId == ChannelForProject(issue.project, settings)
            && q.text == msg + desc + FieldLines(CreatedFields(issue, settings, h))
  {
    var fields := CreatedFields(issue, settings, h);
    assert AllTitled(fields);
    SpeakAttachment(CreatedMessage(issue.project.value, issue, settings, h),
                    ChannelForProject(issue.project, settings),
                    CreatedText(issue.description.value, settings), fields,
                    TokenForProject(issue.project, settings), settings);
  }

  /** The text of an announced update: the message, the escaped notes when
      there are any, then one line per journal detail, in order. */
  lemma EditedRequestText(issue: Issue, journal: Journal, settings: Settings, h: Host)
    requires IssueEditedSpec(issue, journal, settings, h).Posted?
    ensures var q := IssueEditedSpec(issue, journal, settings, h).request;
            var msg := EditedMessage(issue.project.value, issue, journal, settings, h);
            var notes := if journal.notes.Some? then "\r\n<b>Описание:</b> " + Escape(journal.notes.value) else "";
            var fields := DetailFields(journal.details, h);
            && AllTitled(fields)
            && (forall k :: 0 <= k < |fields| ==> fields[k] == DetailToField(journal.details[k], h))
            && q.chatId == ChannelForProject(issue.project, settings)
            && q.text == msg + notes + FieldLines(fields)
  {
    var text := if journal.notes.Some? then Some(Escape(journal.notes.value)) else None;
    var fields := DetailFields(journal.details, h);
    assert AllTitled(fields);
    SpeakAttachment(EditedMessage(issue.project.value, issue, journal, settings, h),
                    ChannelForProject(issue.project, settings), text, fields,
                    TokenForProject(issue.project, settings), settings);
  }

  /** Mentions appear only when `auto_mentions` is "1". */
  lemma MentionsOnlyWhenEnabled(text: Option<string>, settings: Settings)
    ensures settings.autoMentions != Some("1") ==> MentionPart(text, settings) == ""
    ensures settings.autoMentions == Some("1") && ExtractUsernames(text) != [] ==>
              MentionPart(text, settings) == "\nTo: " + Join(ExtractUsernames(text), ", ")
  {
  }
}
