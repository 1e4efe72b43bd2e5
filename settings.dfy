/** The settings store (src/contexts/SettingsContext.tsx): one record of five
    settings, loaded once from browser storage by overlaying whatever was
    stored on the defaults, changed one field at a time, reset to the
    defaults, and mirrored to storage after every change. A failed storage
    write is swallowed. */
module SettingsStore {
  import opened Wrappers
  import opened Dates
  import opened TimeUtils
  import opened Schedule

  /** The three date patterns a user can pick. */
  datatype DateFormat = MonthDayYear | DayMonthYear | YearMonthDay {
    /** The pattern string stored and handed to `formatDate`. */
    function Pattern(): string {
      match this
      case MonthDayYear => "MM/dd/yyyy"
      case DayMonthYear => "dd/MM/yyyy"
      case YearMonthDay => "yyyy-MM-dd"
    }
  }

  /** Every pattern the settings can hold is one `formatDate` spells out
      itself, so it never falls back to the locale format. */
  lemma PatternsAreFormatted(f: DateFormat, d: CalendarDay)
    ensures FormatDate(d, f.Pattern()).Some?
  {
  }

  datatype Settings = Settings(timeFormat: TimeFormat, weekStartDay: WeekStartDay,
                               defaultEventCategory: Category, notifications: bool,
                               dateFormat: DateFormat)

  /** `defaultSettings`. */
  const Defaults := Settings(H12, Sunday, Personal, true, MonthDayYear)

  /** `SETTINGS_STORAGE_KEY`. */
  const StorageKey := "date-day-pilot-settings"

  /** `Partial<Settings>`: the keys a stored record happens to have. */
  datatype PartialSettings = PartialSettings(timeFormat: Option<TimeFormat>,
                                             weekStartDay: Option<WeekStartDay>,
                                             defaultEventCategory: Option<Category>,
                                             notifications: Option<bool>,
                                             dateFormat: Option<DateFormat>)

  /** `{}` */
  const NoSettings := PartialSettings(None, None, None, None, None)

  /** A stored string as `JSON.parse` sees it: empty, not JSON at all, JSON
      that is not an object (a number, a string, a boolean, `null`), or an
      object with some of the settings' keys. */
  datatype StoredText = EmptyText | Malformed | NonObject | ObjectText(record: PartialSettings)

  /** `parseStoredSettings(localStorage.getItem(key))`; None is a missing key. */
  function ParseStoredSettings(stored: Option<StoredText>): PartialSettings {
    match stored
    case None => NoSettings
    case Some(EmptyText) => NoSettings
    case Some(Malformed) => NoSettings
    case Some(NonObject) => NoSettings
    case Some(ObjectText(record)) => record
  }

  /** Decoding is lenient: a missing, empty, unparsable or non-object value is
      `{}`, and an object comes back exactly as stored. */
  lemma ParseStoredSettingsLenient(stored: Option<StoredText>)
    ensures stored.Some? && stored.value.ObjectText? ==> ParseStoredSettings(stored) == stored.value.record
    ensures !(stored.Some? && stored.value.ObjectText?) ==> ParseStoredSettings(stored) == NoSettings
  {
  }

  /** `{ ...defaults, ...stored }`: a key the stored record has wins. */
  function Overlay(defaults: Settings, stored: PartialSettings): (s: Settings)
    ensures stored.timeFormat.Some? ==> s.timeFormat == stored.timeFormat.value
    ensures stored.timeFormat.None? ==> s.timeFormat == defaults.timeFormat
    ensures stored.weekStartDay.Some? ==> s.weekStartDay == stored.weekStartDay.value
    ensures stored.weekStartDay.None? ==> s.weekStartDay == defaults.weekStartDay
    ensures stored.defaultEventCategory.Some? ==> s.defaultEventCategory == stored.defaultEventCategory.value
    ensures stored.defaultEventCategory.None? ==> s.defaultEventCategory == defaults.defaultEventCategory
    ensures stored.notifications.Some? ==> s.notifications == stored.notifications.value
    ensures stored.notifications.None? ==> s.notifications == defaults.notifications
    ensures stored.dateFormat.Some? ==> s.dateFormat == stored.dateFormat.value
    ensures stored.dateFormat.None? ==> s.dateFormat == defaults.dateFormat
  {
    Settings(stored.timeFormat.GetOr(defaults.timeFormat),
             stored.weekStartDay.GetOr(defaults.weekStartDay),
             stored.defaultEventCategory.GetOr(defaults.defaultEventCategory),
             stored.notifications.GetOr(defaults.notifications),
             stored.dateFormat.GetOr(defaults.dateFormat))
  }

  /** The settings a load produces from what storage holds. */
  function Load(stored: Option<StoredText>): Settings {
    Overlay(Defaults, ParseStoredSettings(stored))
  }

  /** A record with only `timeFormat: '24h'` loads as the defaults in 24-hour mode. */
  lemma LoadOneKey()
    ensures Load(Some(ObjectText(NoSettings.(timeFormat := Some(H24)))))
      == Settings(H24, Sunday, Personal, true, MonthDayYear)
  {
  }

  /** Nothing usable in storage loads the defaults. */
  lemma LoadNothing(stored: Option<StoredText>)
    requires !(stored.Some? && stored.value.ObjectText?)
    ensures Load(stored) == Defaults
  {
  }

  /** `JSON.stringify(settings)`: every key present. */
  function Stringify(s: Settings): StoredText {
    ObjectText(PartialSettings(Some(s.timeFormat), Some(s.weekStartDay), Some(s.defaultEventCategory),
                               Some(s.notifications), Some(s.dateFormat)))
  }

  /** What is stored loads back as exactly the record that was stored. */
  lemma LoadAfterStore(s: Settings)
    ensures Load(Some(Stringify(s))) == s
  {
  }

  // ---------------------------------------------------------------------------
  // One-field updates

  datatype SettingKey = TimeFormatKey | WeekStartDayKey | DefaultEventCategoryKey
                      | NotificationsKey | DateFormatKey

  /** The value of one setting, whichever its type. */
  datatype SettingValue =
    | TimeFormatValue(timeFormat: TimeFormat)
    | WeekStartDayValue(weekStartDay: WeekStartDay)
    | CategoryValue(category: Category)
    | NotificationsValue(notifications: bool)
    | DateFormatValue(dateFormat: DateFormat)

  /** `s[key]`. */
  function Field(s: Settings, k: SettingKey): SettingValue {
    match k
    case TimeFormatKey => TimeFormatValue(s.timeFormat)
    case WeekStartDayKey => WeekStartDayValue(s.weekStartDay)
    case DefaultEventCategoryKey => CategoryValue(s.defaultEventCategory)
    case NotificationsKey => NotificationsValue(s.notifications)
    case DateFormatKey => DateFormatValue(s.dateFormat)
  }

  /** A well-typed `setSetting(key, value)` argument pair. */
  datatype SettingUpdate =
    | SetTimeFormat(timeFormat: TimeFormat)
    | SetWeekStartDay(weekStartDay: WeekStartDay)
    | SetDefaultEventCategory(category: Category)
    | SetNotifications(notifications: bool)
    | SetDateFormat(dateFormat: DateFormat)
  {
    function Key(): SettingKey {
      match this
      case SetTimeFormat(_) => TimeFormatKey
      case SetWeekStartDay(_) => WeekStartDayKey
      case SetDefaultEventCategory(_) => DefaultEventCategoryKey
      case SetNotifications(_) => NotificationsKey
      case SetDateFormat(_) => DateFormatKey
    }

    function Value(): SettingValue {
      match this
      case SetTimeFormat(v) => TimeFormatValue(v)
      case SetWeekStartDay(v) => WeekStartDayValue(v)
      case SetDefaultEventCategory(v) => CategoryValue(v)
      case SetNotifications(v) => NotificationsValue(v)
      case SetDateFormat(v) => DateFormatValue(v)
    }
  }

  /** `{ ...settings, [key]: value }`. */
  function With(s: Settings, u: SettingUpdate): Settings {
    match u
    case SetTimeFormat(v) => s.(timeFormat := v)
    case SetWeekStartDay(v) => s.(weekStartDay := v)
    case SetDefaultEventCategory(v) => s.(defaultEventCategory := v)
    case SetNotifications(v) => s.(notifications := v)
    case SetDateFormat(v) => s.(dateFormat := v)
  }

  /** An update sets its own key to its value and leaves every other key alone. */
  lemma WithChangesOneField(s: Settings, u: SettingUpdate, k: SettingKey)
    ensures Field(With(s, u), k) == if k == u.Key() then u.Value() else Field(s, k)
  {
  }

  /** Two records that agree on every key are the same record. */
  lemma FieldsDetermineSettings(s: Settings, t: Settings)
    requires forall k :: Field(s, k) == Field(t, k)
    ensures s == t
  {
    assert Field(s, TimeFormatKey) == Field(t, TimeFormatKey);
    assert Field(s, WeekStartDayKey) == Field(t, WeekStartDayKey);
    assert Field(s, DefaultEventCategoryKey) == Field(t, DefaultEventCategoryKey);
    assert Field(s, NotificationsKey) == Field(t, NotificationsKey);
    assert Field(s, DateFormatKey) == Field(t, DateFormatKey);
  }

  /** Setting a key to the value it already has changes nothing. */
  lemma WithCurrentValue(s: Settings, u: SettingUpdate)
    requires Field(s, u.Key()) == u.Value()
    ensures With(s, u) == s
  {
    forall k ensures Field(With(s, u), k) == Field(s, k) {
      WithChangesOneField(s, u, k);
    }
    FieldsDetermineSettings(With(s, u), s);
  }

  /** The provider: the settings in memory and the browser's key-value storage. */
  class SettingsProvider {
    var settings: Settings
    var storage: map<string, StoredText>

    /** `useState(defaultSettings)`, before the mount effect has run. */
    constructor(storage: map<string, StoredText>)
      ensures settings == Defaults && this.storage == storage
    {
      settings := Defaults;
      this.storage := storage;
    }

    /** `localStorage.getItem(SETTINGS_STORAGE_KEY)`. */
    function Stored(): Option<StoredText>
      reads this
    {
      if StorageKey in storage then Some(storage[StorageKey]) else None
    }

    /** The mount effect: load and overlay on the defaults; storage is only read. */
    method Mount()
      modifies this
      ensures settings == Load(old(Stored()))
      ensures storage == old(storage)
    {
      var storedSettings := ParseStoredSettings(Stored());
      settings := Overlay(Defaults, storedSettings);
    }

    /** `storeSettings(s)`: write the record under the key; when the write
        fails (`writeOk` false) storage is left as it was and nothing is raised. */
    method StoreSettings(s: Settings, writeOk: bool)
      modifies this
      ensures storage == if writeOk then old(storage)[StorageKey := Stringify(s)] else old(storage)
      ensures settings == old(settings)
    {
      if writeOk {
        storage := storage[StorageKey := Stringify(s)];
      }
    }

    /** `setSetting(key, value)`: the new record in memory whatever happens to
        the write, and, when it succeeds, the same record in storage. */
    method SetSetting(u: SettingUpdate, writeOk: bool)
      modifies this
      ensures settings == With(old(settings), u)
      ensures storage == if writeOk then old(storage)[StorageKey := Stringify(settings)] else old(storage)
      ensures writeOk ==> Load(Stored()) == settings
    {
      var newSettings := With(settings, u);
      settings := newSettings;
      StoreSettings(newSettings, writeOk);
      LoadAfterStore(newSettings);
    }

    /** `resetSettings()`: the defaults in memory and, when the write
        succeeds, in storage. */
    method ResetSettings(writeOk: bool)
      modifies this
      ensures settings == Defaults
      ensures storage == if writeOk then old(storage)[StorageKey := Stringify(Defaults)] else old(storage)
      ensures writeOk ==> Load(Stored()) == Defaults
    {
      settings := Defaults;
      StoreSettings(Defaults, writeOk);
      LoadAfterStore(Defaults);
    }
  }
}
