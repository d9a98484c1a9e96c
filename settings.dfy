/// The plugin's settings hash (`Setting.plugin_redmine_telegram_notifications`),
/// passed in explicitly. A key that is not set reads as nil.
module PluginSettings {
  import opened RubyText

  datatype Settings = Settings(
    telegramBotToken: Option<string>,      // 'telegram_bot_token'
    channel: Option<string>,               // 'channel'
    priorityIdAdd: Option<string>,         // 'priority_id_add'
    postUpdates: Option<string>,           // 'post_updates'
    newIncludeDescription: Option<string>, // 'new_include_description'
    displayWatchers: Option<string>,       // 'display_watchers'
    autoMentions: Option<string>           // 'auto_mentions'
  )
}
