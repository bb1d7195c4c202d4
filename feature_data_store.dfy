/** The freshness tracker of the current revision: one timestamp kept in a
    preference store, 0 standing for "no data", and a staleness test against
    a fixed threshold. The clock is the parameter `now`; one time unit is used
    throughout (the writer and the time provider both deliver milliseconds). */
module FeatureDataStore {
  import opened Resources

  const THIRTY_MIN_IN_SECONDS: int := 1800000
  const NO_DATA: int := 0

  /** The preference store's contents: the "timestamp" key, absent until the
      first write. */
  datatype Preferences = Preferences(timestamp: Option<int>)

  /** getTimestampInSeconds: the stored value, or NO_DATA when none is stored. */
  function Timestamp(p: Preferences): int {
    match p.timestamp
    case None => NO_DATA
    case Some(t) => t
  }

  /** getTimeSinceLastUpdateInSeconds: the elapsed time since the stored
      timestamp, or NO_DATA when the stored value is NO_DATA. */
  function TimeSinceLastUpdate(p: Preferences, now: int): int {
    if Timestamp(p) != NO_DATA then now - Timestamp(p) else NO_DATA
  }

  /** isDataStale: data is stale exactly when a non-zero timestamp is stored
      and strictly more than the threshold has elapsed since it. */
  function DataStale(p: Preferences, now: int): (stale: bool)
    ensures stale <==>
      p.timestamp.Some? && p.timestamp.value != NO_DATA
      && now - p.timestamp.value > THIRTY_MIN_IN_SECONDS
  {
    TimeSinceLastUpdate(p, now) > THIRTY_MIN_IN_SECONDS
  }

  /** With no timestamp stored the data is never stale. */
  lemma NeverStaleWithoutTimestamp(now: int)
    ensures Timestamp(Preferences(None)) == NO_DATA
    ensures !DataStale(Preferences(None), now)
  {
  }

  /** The threshold is strict: an age of exactly the threshold is fresh, one
      unit more is stale. */
  lemma StaleThresholdIsStrict(t: int)
    requires t != NO_DATA
    ensures !DataStale(Preferences(Some(t)), t + THIRTY_MIN_IN_SECONDS)
    ensures DataStale(Preferences(Some(t)), t + THIRTY_MIN_IN_SECONDS + 1)
  {
  }

  /** Staleness is monotone in the clock. */
  lemma StaleIsMonotone(p: Preferences, now: int, later: int)
    requires DataStale(p, now) && now <= later
    ensures DataStale(p, later)
  {
  }

  /** The preference store; `edit` replaces the stored value. */
  class DataStoreManager {
    var preferences: Preferences

    constructor (initial: Preferences)
      ensures preferences == initial
    {
      preferences := initial;
    }

    /** setTimestampInSeconds: store the value under the timestamp key; a
        later read returns it. */
    method SetTimestampInSeconds(value: int)
      modifies this
      ensures preferences == old(preferences).(timestamp := Some(value))
      ensures Timestamp(preferences) == value
    {
      preferences := preferences.(timestamp := Some(value));
    }

    /** getTimestampInSeconds: the value last stored, NO_DATA when none was. */
    method GetTimestampInSeconds() returns (t: int)
      ensures preferences.timestamp.Some? ==> t == preferences.timestamp.value
      ensures preferences.timestamp.None? ==> t == NO_DATA
    {
      t := Timestamp(preferences);
    }

    method IsDataStale(now: int) returns (stale: bool)
      ensures stale == DataStale(preferences, now)
    {
      stale := DataStale(preferences, now);
    }
  }
}
