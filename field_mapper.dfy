/// `detail_to_field` (lib/redmine_telegram_notifications/notifier.rb:150-202):
/// one journal detail (a changed attribute, custom field or attachment)
/// becomes one titled field of the Telegram message.
module FieldMapper {
  import opened RubyText
  import opened Escaper

  /** A journal detail: `property` is "attr", "cf", "attachment" or
      "relation"; `propKey` names what changed; `value` is the new value,
      nil when it was cleared. */
  datatype Detail = Detail(property: string, propKey: string, value: Option<string>)

  /** A message field. `title` is nil when a custom field could not be
      found; `short` stands for the presence of `:short => true`. */
  datatype Field = Field(title: Option<string>, value: string, short: bool)

  /** What `detail_to_field` looks up in Redmine. Each table maps the id the
      code passes to `find` to the record's `to_s` (or, for attachments and
      issues, to its URL); an id that is not in the table is a failed find,
      which the code rescues as nil. `t` is the I18n translation. */
  datatype Host = Host(
    customFieldNames: map<string, string>,  // CustomField.find(prop_key).name
    trackers: map<string, string>,
    projects: map<string, string>,
    statuses: map<string, string>,
    priorities: map<string, string>,
    categories: map<string, string>,
    users: map<string, string>,
    versions: map<string, string>,
    attachmentUrls: map<string, string>,    // object_url(Attachment.find(prop_key))
    issueUrls: map<string, string>,         // object_url(Issue.find(value))
    t: string -> string)

  /** The value shown for an empty one. */
  const Placeholder := " - "

  /** `Model.find(id) rescue nil`; `find(nil)` fails too. */
  function Find(table: map<string, string>, id: Option<string>): (r: Option<string>)
    ensures r.Some? <==> id.Some? && id.value in table
    ensures r.Some? ==> r.value == table[id.value]
  {
    if id.Some? && id.value in table then Some(table[id.value]) else None
  }

  /** The `case` key: the custom field's name, "attachment", or the
      prop_key with its first "_id" cut out. */
  function FieldKey(d: Detail, h: Host): Option<string> {
    if d.property == "cf" then Find(h.customFieldNames, Some(d.propKey))
    else if d.property == "attachment" then Some("attachment")
    else Some(SubFirst(d.propKey, "_id", ""))
  }

  /** The title: the custom field's name, the attachment label, or the
      translation of "field_" + key. */
  function FieldTitle(d: Detail, h: Host): Option<string> {
    if d.property == "cf" then Find(h.customFieldNames, Some(d.propKey))
    else if d.property == "attachment" then Some(h.t("label_attachment"))
    else Some(h.t("field_" + SubFirst(d.propKey, "_id", "")))
  }

  /** The keys whose value is the `to_s` of a looked-up record, with the
      table that is searched for each. */
  function EntityTable(h: Host, key: string): Option<map<string, string>> {
    match key
    case "tracker" => Some(h.trackers)
    case "project" => Some(h.projects)
    case "status" => Some(h.statuses)
    case "priority" => Some(h.priorities)
    case "category" => Some(h.categories)
    case "assigned_to" => Some(h.users)
    case "fixed_version" => Some(h.versions)
    case _ => None
  }

  /** Keys shown as long fields. */
  predicate IsLongKey(key: Option<string>) {
    key == Some("title") || key == Some("subject") || key == Some("description")
  }

  /** `value = " - " if value.empty?`. */
  function NonEmpty(v: string): (r: string)
    ensures r != ""
    ensures v != "" ==> r == v
    ensures v == "" ==> r == Placeholder
  {
    if v == "" then Placeholder else v
  }

  /** The escaped raw value, which every branch starts from. */
  function RawValue(d: Detail): string {
    EscapeNil(d.value)
  }

  /** The value after the `case`, before the placeholder rule. */
  function CaseValue(d: Detail, h: Host): string {
    match FieldKey(d, h)
    case None => RawValue(d)
    case Some(key) =>
      if EntityTable(h, key).Some? then EscapeNil(Find(EntityTable(h, key).value, d.value))
      else if key == "attachment" then Find(h.attachmentUrls, Some(d.propKey)).GetOr(RawValue(d))
      else if key == "parent" then Find(h.issueUrls, d.value).GetOr(RawValue(d))
      else RawValue(d)
  }

  /** `detail_to_field detail`. */
  function DetailToField(d: Detail, h: Host): (r: Field)
    ensures r.title == FieldTitle(d, h)
    ensures r.value != ""
    ensures r.short <==> !IsLongKey(FieldKey(d, h))
    ensures r.title.None? <==> d.property == "cf" && d.propKey !in h.customFieldNames
  {
    Field(FieldTitle(d, h), NonEmpty(CaseValue(d, h)), !IsLongKey(FieldKey(d, h)))
  }

  // ---------------------------------------------------------------------------
  // Properties

  /** A record-valued key shows the escaped name of the record, and a
      record that cannot be found shows the placeholder. */
  lemma EntityValue(d: Detail, h: Host, key: string)
    requires FieldKey(d, h) == Some(key) && EntityTable(h, key).Some?
    ensures var found := Find(EntityTable(h, key).value, d.value);
            DetailToField(d, h).value == (if found.None? || found.value == "" then Placeholder else Escape(found.value))
  {
    var found := Find(EntityTable(h, key).value, d.value);
    if found.Some? {
      EscapeEmptyOnlyEmpty(found.value);
    }
  }

  /** An attachment shows its URL when it can be found, otherwise the
      escaped raw value (or the placeholder). */
  lemma AttachmentValue(d: Detail, h: Host)
    requires d.property == "attachment"
    ensures d.propKey in h.attachmentUrls ==>
              DetailToField(d, h).value == NonEmpty(h.attachmentUrls[d.propKey])
    ensures d.propKey !in h.attachmentUrls ==>
              DetailToField(d, h).value == NonEmpty(Escape(d.value.GetOr("")))
    ensures DetailToField(d, h).title == Some(h.t("label_attachment")) && DetailToField(d, h).short
  {
  }

  /** A parent change shows the parent's URL when the issue can be found,
      otherwise the escaped raw id. */
  lemma ParentValue(d: Detail, h: Host)
    requires FieldKey(d, h) == Some("parent")
    ensures d.value.Some? && d.value.value in h.issueUrls ==>
              DetailToField(d, h).value == NonEmpty(h.issueUrls[d.value.value])
    ensures !(d.value.Some? && d.value.value in h.issueUrls) ==>
              DetailToField(d, h).value == NonEmpty(Escape(d.value.GetOr("")))
  {
    assert EntityTable(h, "parent").None? && "parent" != "attachment";
    assert CaseValue(d, h) == Find(h.issueUrls, d.value).GetOr(RawValue(d));
  }

  /** Any other key shows the escaped raw value; title, subject and
      description are the long ones. */
  lemma OtherValue(d: Detail, h: Host)
    requires FieldKey(d, h).None? || (EntityTable(h, FieldKey(d, h).value).None?
               && FieldKey(d, h) != Some("attachment") && FieldKey(d, h) != Some("parent"))
    ensures DetailToField(d, h).value == NonEmpty(Escape(d.value.GetOr("")))
  {
  }

  /** An attribute's key is its prop_key with the first "_id" cut out and
      its title the translation of "field_" + key. */
  lemma AttributeKey(d: Detail, h: Host, name: string, rest: string)
    requires d.property != "cf" && d.property != "attachment"
    requires d.propKey == name + "_id" + rest
    requires forall j :: 0 <= j < |name| ==> !StartsWith(d.propKey[j..], "_id")
    ensures FieldKey(d, h) == Some(name + rest)
    ensures DetailToField(d, h).title == Some(h.t("field_" + name + rest))
  {
    SubFirstAt(name, "_id", rest, "");
    assert name + "" + rest == name + rest;
    assert "field_" + (name + rest) == "field_" + name + rest;
  }

  /** "status_id" loses its "_id". */
  lemma StatusIdKey(k: string)
    requires k == "status_id"
    ensures SubFirst(k, "_id", "") == "status"
  {
    assert k == "status" + "_id" + "";
    forall j | 0 <= j < 6 ensures !StartsWith(k[j..], "_id") {
      assert k[j] != '_';
    }
    SubFirstAt("status", "_id", "", "");
  }

  /** "status_id" is the status key, so a changed status shows the
      status's name under the translated "field_status". */
  lemma StatusChange(d: Detail, h: Host)
    requires d.property == "attr" && d.propKey == "status_id"
    ensures FieldKey(d, h) == Some("status")
    ensures DetailToField(d, h) ==
              Field(Some(h.t("field_status")), NonEmpty(Escape(Find(h.statuses, d.value).GetOr(""))), true)
  {
    StatusIdKey(d.propKey);
    assert "field_" + "status" == "field_status";
    assert EntityTable(h, "status") == Some(h.statuses);
  }

  /** The `case` looks only at the key, so a custom field named "status" is
      treated as a status change: its value is looked up as a status. */
  lemma CustomFieldNamedStatus(d: Detail, h: Host)
    requires d.property == "cf"
    requires d.propKey in h.customFieldNames && h.customFieldNames[d.propKey] == "status"
    ensures DetailToField(d, h) ==
              Field(Some("status"), NonEmpty(Escape(Find(h.statuses, d.value).GetOr(""))), true)
  {
  }

  /** A custom field that cannot be found has no title; its value is the
      escaped raw value. */
  lemma MissingCustomField(d: Detail, h: Host)
    requires d.property == "cf" && d.propKey !in h.customFieldNames
    ensures DetailToField(d, h) == Field(None, NonEmpty(Escape(d.value.GetOr(""))), true)
  {
  }
}
