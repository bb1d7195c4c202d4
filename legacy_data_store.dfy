/** The freshness tracker of the older revision: a first-launch flag and one
    timestamp in a preference store. Emptiness and staleness are both read off
    the elapsed time, with 0 meaning "no data". */
module LegacyDataStore {
  import opened Resources

  const THIRTY_MIN_IN_SECONDS: int := 1800000
  const NO_DATA: int := 0

  /** The preference store's contents: the "first_launch" and "timestamp" keys,
      each absent until first written. */
  datatype Preferences = Preferences(firstLaunch: Option<bool>, timestamp: Option<int>)

  /** isFirstLaunch: the stored flag, true when none is stored. */
  function FirstLaunch(p: Preferences): (first: bool)
    ensures first <==> p.firstLaunch != Some(false)
  {
    match p.firstLaunch
    case None => true
    case Some(flag) => flag
  }

  /** getTimestampInSeconds: the stored value, or NO_DATA when none is stored. */
  function Timestamp(p: Preferences): int {
    match p.timestamp
    case None => NO_DATA
    case Some(t) => t
  }

  /** getTimeSinceLastUpdateInSeconds. */
  function TimeSinceLastUpdate(p: Preferences, now: int): int {
    if Timestamp(p) != NO_DATA then now - Timestamp(p) else NO_DATA
  }

  /** isDataEmpty: the elapsed time equals the sentinel. That holds with no
      timestamp, and also at the very instant a timestamp was written. */
  function DataEmpty(p: Preferences, now: int): (empty: bool)
    ensures empty <==>
      p.timestamp.None? || p.timestamp.value == NO_DATA || now == p.timestamp.value
  {
    TimeSinceLastUpdate(p, now) == NO_DATA
  }

  /** isDataStale: strictly more than the threshold has elapsed since a
      non-zero stored timestamp. */
  function DataStale(p: Preferences, now: int): (stale: bool)
    ensures stale <==>
      p.timestamp.Some? && p.timestamp.value != NO_DATA
      && now - p.timestamp.value > THIRTY_MIN_IN_SECONDS
  {
    TimeSinceLastUpdate(p, now) > THIRTY_MIN_IN_SECONDS
  }

  /** Empty and stale are never both true. */
  lemma EmptyExcludesStale(p: Preferences, now: int)
    ensures !(DataEmpty(p, now) && DataStale(p, now))
  {
  }

  /** Right after a write of the current time the data reads as empty. */
  lemma EmptyAtWriteInstant(p: Preferences, now: int)
    ensures DataEmpty(p.(timestamp := Some(now)), now)
  {
  }

  /** The preference store; `edit` replaces the stored value. */
  class DataStoreManager {
    var preferences: Preferences

    constructor (initial: Preferences)
      ensures preferences == initial
    {
      preferences := initial;
    }

    /** setFirstLaunch: store the flag; a later isFirstLaunch returns it. */
    method SetFirstLaunch(value: bool)
      modifies this
      ensures preferences == old(preferences).(firstLaunch := Some(value))
      ensures FirstLaunch(preferences) == value
    {
      preferences := preferences.(firstLaunch := Some(value));
    }

    method IsFirstLaunch() returns (first: bool)
      ensures first == FirstLaunch(preferences)
    {
      first := FirstLaunch(preferences);
    }

    /** setTimestampInSeconds: store the value; a later read returns it. */
    method SetTimestampInSeconds(value: int)
      modifies this
      ensures preferences == old(preferences).(timestamp := Some(value))
      ensures Timestamp(preferences) == value
    {
      preferences := preferences.(timestamp := Some(value));
    }

    /** getTimestampInSeconds: the value last stored, NO_DATA when none was. */
    method GetTimestampInSeconds() returns (t: int)
      ensures preferences.timestamp.Some? ==> t == preferences.timestamp.value
      ensures preferences.timestamp.None? ==> t == NO_DATA
    {
      t := Timestamp(preferences);
    }

    method IsDataEmpty(now: int) returns (empty: bool)
      ensures empty == DataEmpty(preferences, now)
    {
      empty := DataEmpty(preferences, now);
    }

    method IsDataStale(now: int) returns (stale: bool)
      ensures stale == DataStale(preferences, now)
    {
      stale := DataStale(preferences, now);
    }
  }
}
