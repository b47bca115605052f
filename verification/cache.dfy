/** The cache store: per-source metadata, `_is_cache_valid` and `_get_cache_age`. */
module Cache {
  import opened Text
  import opened Registry

  /** A `last_update` timestamp as `datetime.fromisoformat` reads it: a point in time in
    * whole seconds, or a value it cannot use (an absent key, text that does not parse). */
  datatype Stamp = At(seconds: int) | Unreadable

  /** One entry of `metadata.json`. */
  datatype CacheRecord = CacheRecord(lastUpdate: Stamp, url: string, kind: ListKind)

  type Metadata = map<string, CacheRecord>

  /** `UPDATE_INTERVAL_HOURS`, the default refresh interval. */
  const DefaultIntervalHours := 24

  const SecondsPerMinute := 60
  const SecondsPerHour := 3600
  const SecondsPerDay := 86400

  /** `update_interval_hours` as a `timedelta`, in seconds. */
  function IntervalSeconds(hours: int): int {
    hours * SecondsPerHour
  }

  /** `_is_cache_valid`: the source was updated less than one interval before `now`. */
  function IsCacheValid(metadata: Metadata, interval: int, name: string, now: int): (valid: bool)
    ensures valid <==>
      name in metadata && metadata[name].lastUpdate.At? &&
      now - metadata[name].lastUpdate.seconds < interval
  {
    if name !in metadata then false
    else match metadata[name].lastUpdate
      case Unreadable => false
      case At(t) => now - t < interval
  }

  /** Half an interval after an update the cache is fresh; two intervals after, it is stale. */
  lemma FreshnessBoundaries(metadata: Metadata, interval: int, name: string, now: int)
    requires interval > 0
    requires name in metadata
    ensures metadata[name].lastUpdate == At(now - interval / 2) ==> IsCacheValid(metadata, interval, name, now)
    ensures metadata[name].lastUpdate == At(now - interval * 2) ==> !IsCacheValid(metadata, interval, name, now)
  {
  }

  /** A record written at `t` keeps the source fresh for exactly one interval. */
  lemma RecordedIsFresh(metadata: Metadata, interval: int, name: string, url: string, kind: ListKind, t: int, now: int)
    ensures IsCacheValid(metadata[name := CacheRecord(At(t), url, kind)], interval, name, now) <==> now - t < interval
  {
  }

  /** An age split into the units `_get_cache_age` shows. */
  datatype AgeLabel = DaysHours(days: nat, hours: nat) | HoursMinutes(hours: nat, minutes: nat) | Minutes(minutes: nat)

  /** The units of a `timedelta` of `age` seconds: whole days, then hours and minutes of
    * the remaining `age.seconds`, each rounded down. A negative age has negative days,
    * so it is shown by its (non-negative) seconds part, as Python does. */
  function AgeOf(age: int): (a: AgeLabel)
    ensures a.DaysHours? <==> age >= SecondsPerDay
    ensures a.DaysHours? ==>
      && a.hours < 24
      && a.days * SecondsPerDay + a.hours * SecondsPerHour <= age
      && age < a.days * SecondsPerDay + (a.hours + 1) * SecondsPerHour
    ensures a.HoursMinutes? ==>
      && 0 < a.hours < 24 && a.minutes < 60
      && a.hours * SecondsPerHour + a.minutes * SecondsPerMinute <= age % SecondsPerDay
      && age % SecondsPerDay < a.hours * SecondsPerHour + (a.minutes + 1) * SecondsPerMinute
    ensures a.Minutes? ==>
      && a.minutes < 60
      && a.minutes * SecondsPerMinute <= age % SecondsPerDay < (a.minutes + 1) * SecondsPerMinute
  {
    var days := age / SecondsPerDay;
    var seconds := age % SecondsPerDay;
    var hours := seconds / SecondsPerHour;
    if days > 0 then DaysHours(days, hours)
    else if hours > 0 then HoursMinutes(hours, (seconds % SecondsPerHour) / SecondsPerMinute)
    else Minutes((seconds % SecondsPerHour) / SecondsPerMinute)
  }

  /** `"{d}d {h}h"`, `"{h}h {m}m"` or `"{m}m"`. */
  function Render(a: AgeLabel): (s: string)
    ensures s != [] && s[|s| - 1] in "hm"
  {
    match a
    case DaysHours(d, h) => Decimal(d) + "d " + Decimal(h) + "h"
    case HoursMinutes(h, m) => Decimal(h) + "h " + Decimal(m) + "m"
    case Minutes(m) => Decimal(m) + "m"
  }

  const UnknownAge := "unbekannt"

  /** `_get_cache_age`: how long ago the source was updated, or "unbekannt". */
  function CacheAge(metadata: Metadata, name: string, now: int): (shown: string)
    ensures shown == UnknownAge <==> !(name in metadata && metadata[name].lastUpdate.At?)
    ensures name in metadata && metadata[name].lastUpdate.At? ==>
      shown == Render(AgeOf(now - metadata[name].lastUpdate.seconds))
  {
    if name !in metadata then UnknownAge
    else match metadata[name].lastUpdate
      case Unreadable => UnknownAge
      case At(t) =>
        var r := Render(AgeOf(now - t));
        assert r[|r| - 1] != UnknownAge[|UnknownAge| - 1];
        r
  }
}
