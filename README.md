# Telegram notifications for Redmine: a verified model of the notifier core

The plugin's single hook listener, `TelegramNotifier`, announces new and
updated Redmine issues in a Telegram chat. This project models the string
and selection logic at its centre, all in
`lib/redmine_telegram_notifications/notifier.rb`:

- the HTML escaper `escape`: a chain of seven `gsub`s;
- the mention tokenizer `extract_usernames` and its rendering `mentions`;
- destination resolution, `token_for_project` and `channel_for_project`,
  including the reserved channel `"-"`;
- `detail_to_field`, which turns one journal detail into a message field;
- `speak`: how the message text and request parameters are assembled, and
  the retry counter of the delivery thread;
- the two hooks, `controller_issues_new_after_save` and
  `controller_issues_edit_after_save`: when a notification is sent, and
  what message and attachment it carries.

Modules follow the pieces of the listener:

| file | module | contents |
|---|---|---|
| ruby_text.dfy | `RubyText` | the Ruby and Rails string semantics the code relies on: literal `gsub`, `sub`, `join`, `present?`, `to_i`, and `Option` for nil |
| settings.dfy | `PluginSettings` | the plugin settings as a record |
| escaper.dfy | `Escaper` | `escape` |
| mention_extractor.dfy | `MentionExtractor` | `scan`, `uniq`, `extract_usernames`, `mentions` |
| destination_resolver.dfy | `DestinationResolver` | `token_for_project`, `channel_for_project` |
| field_mapper.dfy | `FieldMapper` | `detail_to_field` |
| dispatcher.dfy | `Dispatcher` | `speak`: the request, its text, the retry loop |
| message_composer.dfy | `MessageComposer` | the two hooks |

Main results:

- **Escape.** `escape` is proved equal to a one-pass reference, `SafeHtml`.
  Each literal `<pre>` becomes `<code>` and each `</pre>` becomes `</code>`.
  Every other `&`, `<` and `>` becomes its entity, and everything else is
  kept as it is, including `[` and `]`.
  - The escaped text decodes back to its input.
  - Its only raw `<` open a `<code>` or `</code>` tag.
- **Mentions.** Matches are found exactly at the positions where
  `@[a-z0-9]` occurs outside an earlier greedy match. The result has no
  duplicates and keeps first-seen order. Scanning the rendered `"\nTo: …"`
  line again gives back the same names.
- **Resolution.** The channel resolver is the token resolver's fallback
  with the `"-"` sentinel removed. A project-level `"-"` silences the
  project even when a global channel is set.
- **Hooks.** Each hook is written as a method and proved equal to a
  specification function. Lemmas then state exactly when each hook posts,
  skips or raises, and what text it posts.

Ruby `nil` is `None`. A value that Ruby interpolates with `to_s` is a
string, where nil renders as `""`. An exception that escapes a hook to
Redmine is an explicit `Raised` outcome, not a precondition.

The code as written does some things a reader may not expect; the model
follows it:

- The placeholder for an empty value is `" - "`, with spaces
  (notifier.rb:197).
- A custom field whose definition has been deleted gets a nil title
  (notifier.rb:152). The field loop of `speak` then raises a `TypeError` on
  `"<b>" + nil` (notifier.rb:18), so no notification is sent.
- The new-issue hook calls `issue.description.empty?` before it checks the
  priority (notifier.rb:58). A nil description therefore raises
  `NoMethodError` even for an issue below the threshold.
- `new_include_description` is tested for truthiness only, so any stored
  value, `"0"` included, turns the description on (notifier.rb:58).
- The updating user's name is not escaped (notifier.rb:92).

## Model

| member | source | states |
|---|---|---|
| RubyText.ReplaceAllSkip | lib/redmine_telegram_notifications/notifier.rb:104 | a literal `gsub` leaves alone a prefix in which the pattern does not start, and continues after it |
| RubyText.ReplaceAllHit | lib/redmine_telegram_notifications/notifier.rb:104 | a literal `gsub` replaces an occurrence at the front and continues after it: the matches are leftmost and do not overlap |
| RubyText.ReplaceAllSelf | lib/redmine_telegram_notifications/notifier.rb:104 | `gsub(p, p)` is the identity, so the `"["` and `"\["` steps change nothing |
| RubyText.ReplaceCharConcat | lib/redmine_telegram_notifications/notifier.rb:104 | replacing a single character distributes over concatenation |
| RubyText.ReplaceCharAbsent | lib/redmine_telegram_notifications/notifier.rb:104 | replacing a character that does not occur changes nothing |
| RubyText.IndexFrom | lib/redmine_telegram_notifications/notifier.rb:158 | the found index is where the pattern starts, and no earlier index from the start point matches |
| RubyText.SubFirstAt | lib/redmine_telegram_notifications/notifier.rb:158 | `sub` replaces only the first occurrence and keeps what comes before and after it |
| RubyText.ToIShow | lib/redmine_telegram_notifications/notifier.rb:51 | `to_i` reads back a written decimal number, and its negation after a leading `-` |
| RubyText.ToIDecimalPrefix | lib/redmine_telegram_notifications/notifier.rb:51 | `to_i` skips a `0d` or `0D` prefix after the optional sign, so `"0d5".to_i` is 5 |
| Escaper.EscapeIsSafeHtml | lib/redmine_telegram_notifications/notifier.rb:103-105 | the seven-step `gsub` chain equals the one-pass reference: `<pre>` gives `<code>`, `</pre>` gives `</code>`, any other `&`, `<` and `>` gives its entity, and every other character is kept |
| Escaper.EntitiesConcat | lib/redmine_telegram_notifications/notifier.rb:104 | escaping entities distributes over concatenation |
| Escaper.EntityPrefixFree | lib/redmine_telegram_notifications/notifier.rb:104 | no character's escaped form is a prefix of another character's escaped form |
| Escaper.EntitiesPrefix | lib/redmine_telegram_notifications/notifier.rb:104 | an escaped text starts with the escaped form of a prefix only when the text starts with that prefix |
| Escaper.EntityStepsAreEntities | lib/redmine_telegram_notifications/notifier.rb:104 | the `&`, `<` and `>` steps together escape each character once; `&` first keeps entities from being escaped twice |
| Escaper.OpenStepRestoresPre | lib/redmine_telegram_notifications/notifier.rb:104 | the `&lt;pre&gt;` step turns exactly the escaped `<pre>` tags of the input into `<code>` |
| Escaper.CloseStepRestoresPre | lib/redmine_telegram_notifications/notifier.rb:104 | the `&lt;/pre&gt;` step turns exactly the escaped `</pre>` tags of the input into `</code>` |
| Escaper.EscapeOutputIsMarkup | lib/redmine_telegram_notifications/notifier.rb:103-105 | every raw `<` in the output opens a `<code>` or `</code>` tag, every raw `>` closes one, and every `&` starts `&amp;`, `&lt;` or `&gt;` |
| Escaper.UnescapeEscape | lib/redmine_telegram_notifications/notifier.rb:103-105 | escaping loses nothing: decoding the output gives back the input |
| Escaper.EscapeEmptyOnlyEmpty | lib/redmine_telegram_notifications/notifier.rb:103-105 | the output is empty exactly when the input is |
| Escaper.EscapeFixesPlainText | lib/redmine_telegram_notifications/notifier.rb:103-105 | text without `&`, `<` and `>` is left unchanged, `[` and `]` included |
| Escaper.EscapeWithoutPreIsEntities | lib/redmine_telegram_notifications/notifier.rb:103-105 | without `<pre>` or `</pre>` tags, the output is the plain per-character escaping |
| Escaper.SafeHtmlPlainPrefix | lib/redmine_telegram_notifications/notifier.rb:103-105 | a prefix without `&`, `<` and `>` passes through unchanged in front of the escaped rest |
| Escaper.EscapePreBlock | lib/redmine_telegram_notifications/notifier.rb:104 | `escape("<pre>x</pre>") == "<code>x</code>"` for plain `x` |
| Escaper.EscapeEntityTextIsNotATag | lib/redmine_telegram_notifications/notifier.rb:104 | the literal text `&lt;pre&gt;` comes out as `&amp;lt;pre&amp;gt;`, not as `<code>` |
| MentionExtractor.TailEnd | lib/redmine_telegram_notifications/notifier.rb:216 | the `[a-z0-9_\-]*` tail is greedy: every character in it is a tail character and the first one after it is not |
| MentionExtractor.MatchesSound | lib/redmine_telegram_notifications/notifier.rb:216 | every span the scan reports from a position on is a whole greedy match of `@[a-z0-9][a-z0-9_\-]*` inside the text, starting at or after that position |
| MentionExtractor.MatchesDisjoint | lib/redmine_telegram_notifications/notifier.rb:216 | the reported matches come in increasing order and do not overlap: each ends before the next one starts |
| MentionExtractor.Scan | lib/redmine_telegram_notifications/notifier.rb:216 | every scanned token is a valid username: `@`, a lowercase letter or digit, then only `[a-z0-9_-]` |
| MentionExtractor.MatchesFromComplete | lib/redmine_telegram_notifications/notifier.rb:216 | a match is reported at a position exactly when the pattern matches there |
| MentionExtractor.InsideMatch | lib/redmine_telegram_notifications/notifier.rb:216 | no new match starts inside a greedy match |
| MentionExtractor.Uniq | lib/redmine_telegram_notifications/notifier.rb:216 | `uniq` keeps exactly the elements of its input, each once |
| MentionExtractor.UniqFirstSeenOrder | lib/redmine_telegram_notifications/notifier.rb:216 | `uniq` keeps the order of first occurrence |
| MentionExtractor.UniqOfDistinct | lib/redmine_telegram_notifications/notifier.rb:216 | `uniq` leaves a list without duplicates unchanged |
| MentionExtractor.ExtractUsernames | lib/redmine_telegram_notifications/notifier.rb:209-217 | the names are valid usernames without duplicates, and nil gives no names |
| MentionExtractor.ExtractFindsEveryMatch | lib/redmine_telegram_notifications/notifier.rb:209-217 | every match in the text is among the extracted names |
| MentionExtractor.ExtractFindsOnlyMatches | lib/redmine_telegram_notifications/notifier.rb:209-217 | every extracted name is a greedy match somewhere in the text |
| MentionExtractor.ScanConcat | lib/redmine_telegram_notifications/notifier.rb:216 | scanning a concatenation whose first part ends outside a match gives the two scans one after the other |
| MentionExtractor.ScanWithoutAt | lib/redmine_telegram_notifications/notifier.rb:216 | text without `@` gives no names |
| MentionExtractor.ScanJoin | lib/redmine_telegram_notifications/notifier.rb:206-216 | scanning usernames joined by `", "` gives back the list |
| MentionExtractor.Mentions | lib/redmine_telegram_notifications/notifier.rb:204-207 | nil exactly when no names are found; otherwise the text starts with `"\nTo: "` |
| MentionExtractor.MentionsRescan | lib/redmine_telegram_notifications/notifier.rb:204-217 | extracting from the rendered `"\nTo: …"` line gives back the same names |
| MentionExtractor.ExtractExample | lib/redmine_telegram_notifications/notifier.rb:209-217 | `"hello @Bob and @alice_2 and @alice_2"` gives `["@alice_2"]`, and nil gives `[]` |
| DestinationResolver.CustomValue | lib/redmine_telegram_notifications/notifier.rb:129-143 | a failed custom-value lookup reads as nil |
| DestinationResolver.FirstPresent | lib/redmine_telegram_notifications/notifier.rb:129-143 | `find(&:present?)` is nil exactly when no candidate is present, and otherwise returns the first present candidate |
| DestinationResolver.FirstPresentPair | lib/redmine_telegram_notifications/notifier.rb:129-132 | with two candidates: the first if present, else the second if present, else nil |
| DestinationResolver.TokenForProject | lib/redmine_telegram_notifications/notifier.rb:124-133 | nil for a blank project; otherwise the project's token if present, else the global token if present, else nil |
| DestinationResolver.ChannelForProject | lib/redmine_telegram_notifications/notifier.rb:135-148 | nil for a blank project; never `"-"`; a returned channel is present |
| DestinationResolver.ChannelFallback | lib/redmine_telegram_notifications/notifier.rb:135-148 | the project channel if present, else the global channel if present, with a chosen `"-"` mapped to nil |
| DestinationResolver.NoProjectNoChannel | lib/redmine_telegram_notifications/notifier.rb:124-136 | a blank project has neither channel nor token |
| DestinationResolver.ProjectDashSuppresses | lib/redmine_telegram_notifications/notifier.rb:140-147 | a project-level `"-"` suppresses notification even when a global channel is set |
| DestinationResolver.GlobalDashSuppresses | lib/redmine_telegram_notifications/notifier.rb:140-147 | a global `"-"` suppresses every project without a channel of its own |
| DestinationResolver.TokenKeepsDash | lib/redmine_telegram_notifications/notifier.rb:124-133 | the token resolver has no sentinel: a `"-"` token is returned as it is |
| DestinationResolver.ChannelIsSuppressedResolve | lib/redmine_telegram_notifications/notifier.rb:124-148 | the channel is the shared fallback with `"-"` replaced by nil |
| FieldMapper.NonEmpty | lib/redmine_telegram_notifications/notifier.rb:197 | the value is never empty: a non-empty value is kept and an empty one becomes `" - "` |
| FieldMapper.DetailToField | lib/redmine_telegram_notifications/notifier.rb:150-202 | the title is derived from the key; the value is never empty; `short` is set exactly for keys other than title, subject and description; the title is nil exactly for a custom field that cannot be found |
| FieldMapper.EntityValue | lib/redmine_telegram_notifications/notifier.rb:168-197 | a record-valued key shows the escaped name of the record, and an unresolved record shows `" - "` |
| FieldMapper.AttachmentValue | lib/redmine_telegram_notifications/notifier.rb:154-191 | an attachment shows its URL when it is found and the escaped raw value otherwise, under the attachment label, as a short field |
| FieldMapper.ParentValue | lib/redmine_telegram_notifications/notifier.rb:192-194 | a parent change shows the parent issue's URL when it is found, otherwise the escaped raw id |
| FieldMapper.OtherValue | lib/redmine_telegram_notifications/notifier.rb:163-197 | any other key shows the escaped raw value, or `" - "` when that is empty |
| FieldMapper.AttributeKey | lib/redmine_telegram_notifications/notifier.rb:157-160 | an attribute's key is its prop_key with the first `"_id"` cut out, and its title is the translation of `"field_" + key` |
| FieldMapper.StatusChange | lib/redmine_telegram_notifications/notifier.rb:157-176 | `status_id` becomes the key `status`: the status's escaped name under the translated `field_status` |
| FieldMapper.CustomFieldNamedStatus | lib/redmine_telegram_notifications/notifier.rb:151-176 | a custom field named `status` takes the status branch: its value is looked up as a status |
| FieldMapper.MissingCustomField | lib/redmine_telegram_notifications/notifier.rb:151-201 | a custom field that cannot be found gives a field without a title and with the escaped raw value |
| Dispatcher.AppendFields | lib/redmine_telegram_notifications/notifier.rb:17-19 | the loop appends one line per field, in order; it raises, reported as None, exactly when some field has no title |
| Dispatcher.Speak | lib/redmine_telegram_notifications/notifier.rb:5-22 | the request equals `SpeakSpec`: the token falls back to the global one, `chat_id` is the channel, parse mode is HTML, previews are off, and the text is the message, then the description block, then the field lines |
| Dispatcher.FieldLinesConcat | lib/redmine_telegram_notifications/notifier.rb:17-19 | the field lines of a concatenation are the concatenated field lines |
| Dispatcher.FieldLinesInOrder | lib/redmine_telegram_notifications/notifier.rb:17-19 | the first field's line comes first, followed by the lines of the rest |
| Dispatcher.SpeakRequest | lib/redmine_telegram_notifications/notifier.rb:7-22 | a posted request is HTML without previews, sent to the channel if one was given, at the URL of the resolved token, and its text starts with the message |
| Dispatcher.SpeakRaisesOnlyOnMissingTitle | lib/redmine_telegram_notifications/notifier.rb:15-19 | `speak` raises exactly when some field has a nil title, and it never skips |
| Dispatcher.SpeakAttachment | lib/redmine_telegram_notifications/notifier.rb:15-22 | with titled fields, the text is the message, then the description block only when there is a description, then the field lines |
| Dispatcher.SpeakWithDescription | lib/redmine_telegram_notifications/notifier.rb:16 | a description, even an empty one, is announced by its header |
| Dispatcher.Deliver | lib/redmine_telegram_notifications/notifier.rb:27-42 | at most five attempts; every attempt before the last failed; it stops at the first response, whatever its status code; it gives up only after five failures |
| MessageComposer.DetailFields | lib/redmine_telegram_notifications/notifier.rb:96 | one field per journal detail, in order: the k-th field is `detail_to_field` of the k-th detail |
| MessageComposer.IssueCreated | lib/redmine_telegram_notifications/notifier.rb:46-80 | the new-issue hook, building its field list step by step, equals `IssueCreatedSpec` |
| MessageComposer.IssueEdited | lib/redmine_telegram_notifications/notifier.rb:82-100 | the update hook equals `IssueEditedSpec` |
| MessageComposer.CreatedGating | lib/redmine_telegram_notifications/notifier.rb:48-78 | a new issue is posted exactly when a channel resolves, the description is not nil and the priority reaches the threshold; a nil description raises `NoMethodError` whenever a channel resolves |
| MessageComposer.EditedGating | lib/redmine_telegram_notifications/notifier.rb:85-98 | an update is skipped exactly when there is no channel, `post_updates` is not `"1"` or the priority is below the threshold; otherwise it raises exactly when a changed custom field no longer exists |
| MessageComposer.DashProjectIsSilent | lib/redmine_telegram_notifications/notifier.rb:46-100 | a project whose channel is `"-"` is never notified by either hook |
| MessageComposer.ThresholdReadsSetting | lib/redmine_telegram_notifications/notifier.rb:50-51 | the threshold is 1 unless `priority_id_add` is present, and a number written there is read as that number |
| MessageComposer.CreatedFieldTitles | lib/redmine_telegram_notifications/notifier.rb:59-76 | a new issue has exactly the status, priority and assignee fields, plus the watchers field exactly when `display_watchers` is `"yes"` |
| MessageComposer.CreatedRequestText | lib/redmine_telegram_notifications/notifier.rb:55-78 | a posted new issue goes to the resolved channel with the message, the escaped description when it is non-empty and enabled, and the field lines |
| MessageComposer.EditedRequestText | lib/redmine_telegram_notifications/notifier.rb:92-98 | a posted update carries the message, the escaped notes when there are any, and one line per journal detail, in order |
| MessageComposer.MentionsOnlyWhenEnabled | lib/redmine_telegram_notifications/notifier.rb:55 | mentions are added only when `auto_mentions` is `"1"`, and then they are the `"\nTo: "` list |

## Left out

- The delivery thread, `HTTPClient`, its five timeouts, `post_async` and `conn.pop` (notifier.rb:27-42) are concurrency and network I/O. Only the retry counter is modelled, as `Dispatcher.Deliver`, over a given sequence of attempt outcomes.
- The `Rails.logger` calls (notifier.rb:24-25,37,39) only log.
- `Setting.plugin_redmine_telegram_notifications[...]` is replaced by the `PluginSettings.Settings` record, passed in. A setting that is not stored is `None`.
- ActiveRecord lookups (`find`, `find_by_name`, `custom_value_for`) are foreign calls. `FieldMapper.Find` stands in for each `find … rescue nil`; the lookups are modelled as maps from the id to the record's `to_s`, and an id that is absent is the rescued `nil`. The lookup keys are strings. Ruby's id coercion, such as `find("3abc")`, is not modelled.
- `I18n.t` and `l` are foreign localisation tables. They are the uninterpreted function `Host.t`, and both are treated as the same table.
- `object_url` (notifier.rb:107-122) depends on Rails route generation, so it is not part of this model. The URLs it would give for an issue, an attachment or a parent issue are inputs.
- The `to_s` renderings of issues, projects, users, statuses and dates are given strings.
- `FieldMapper.DetailToField`: an absent `:short` key is modelled as `short == false`. `Dispatcher.Speak` does not read the flag.
- `MessageComposer.IssueCreated`: `issue.priority_id.to_i` of a nil priority id is modelled as 0. Other non-integer priority ids cannot occur.
