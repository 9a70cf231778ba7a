/** The state `App.tsx` keeps and the handlers that change it: the refresh
    cycle (`handleRefresh`), the notification handlers, login, logout and
    leaving the welcome screen. `localStorage` is the `storage` map. */
module Portal {
  import opened Wrappers
  import opened DataService
  import opened Notifications
  import opened Sync
  import Seqs

  datatype Tab = ProfileTab | SalaryTab | SettingsTab

  /** What a cycle asks of the device besides the state change: nothing, the
      failure alert, or the notification sound of the given priority. */
  datatype Feedback = Quiet | Alert | Sound(priority: Priority)

  /** `emp_cache_${p_id}`. */
  function CacheKey(id: string): string {
    "emp_cache_" + id
  }

  /** The cached snapshot of an employee, if any. */
  function Cached(storage: map<string, Employee>, id: string): Option<Employee> {
    if CacheKey(id) in storage then Some(storage[CacheKey(id)]) else None
  }

  /** What `handleRefresh` makes of the settled fetch: the fetched snapshot
      and the events it raises against the cache entry of `id`, or why the
      cycle failed. */
  function Settle(storage: map<string, Employee>, id: string, fetched: Result<Employee, FetchError>, locale: Locale)
    : (r: Result<(Employee, seq<Event>), RefreshError>)
    ensures fetched.Err? ==> r == Err(FetchFailed(fetched.error))
    ensures r.Ok? ==> fetched == Ok(r.value.0)
  {
    match fetched
    case Err(e) => Err(FetchFailed(e))
    case Ok(latest) =>
      match Events(Cached(storage, id), latest, locale)
      case Err(e) => Err(e)
      case Ok(events) => Ok((latest, events))
  }

  /** One whole refresh cycle of the logged-in employee `current`, from the
      six responses to the events raised. */
  function Cycle(storage: map<string, Employee>, current: Employee, responses: Responses, locale: Locale)
    : Result<(Employee, seq<Event>), RefreshError>
  {
    Settle(storage, current.profile.id, FetchEmployeeData(responses, current.profile.id, locale), locale)
  }

  /** The notifications a successful cycle prepends: the stamped events, or
      the "up to date" entry when there are none and the refresh is manual. */
  function Posted(events: seq<Event>, clock: Clock, silent: bool): seq<Notification> {
    if |events| > 0 then StampAll(events, clock)
    else if !silent then [UpToDate(clock)]
    else []
  }

  predicate AnyHigh(events: seq<Event>) {
    exists k :: 0 <= k < |events| && events[k].priority == High
  }

  /** The sound of a successful cycle: high when some event is high. */
  function SoundFor(events: seq<Event>): Feedback {
    if |events| == 0 then Quiet
    else if AnyHigh(events) then Sound(High)
    else Sound(Normal)
  }

  /** The `newNotifs.push(...)` calls of a cycle, one per event in order,
      each stamped with its own random draw. */
  method StampEvents(events: seq<Event>, clock: Clock) returns (newNotifs: seq<Notification>)
    ensures newNotifs == StampAll(events, clock)
  {
    newNotifs := [];
    for k := 0 to |events|
      invariant |newNotifs| == k
      invariant forall j :: 0 <= j < k ==> newNotifs[j] == Stamp(events[j], clock, j)
    {
      newNotifs := newNotifs + [Stamp(events[k], clock, k)];
    }
  }

  /** Stamping keeps each event's priority. */
  lemma StampedHigh(events: seq<Event>, clock: Clock)
    ensures AnyHigh(events) <==> exists k :: 0 <= k < |events| && StampAll(events, clock)[k].priority == High
  {
    var ns := StampAll(events, clock);
    if AnyHigh(events) {
      var k :| 0 <= k < |events| && events[k].priority == High;
      assert ns[k].priority == High;
    }
    if exists k :: 0 <= k < |events| && ns[k].priority == High {
      var k :| 0 <= k < |events| && ns[k].priority == High;
      assert events[k].priority == High;
    }
  }

  /** The end of a successful cycle: the `newNotifs.push(...)` calls, then
      either the notifications and the sound of the highest priority pushed,
      or, for a manual refresh with nothing pushed, the "up to date" entry. */
  method Announce(events: seq<Event>, clock: Clock, silent: bool) returns (posted: seq<Notification>, feedback: Feedback)
    ensures posted == Posted(events, clock, silent)
    ensures feedback == SoundFor(events)
  {
    var newNotifs := StampEvents(events, clock);
    if |newNotifs| > 0 {
      posted := newNotifs;
      var high := exists k :: 0 <= k < |newNotifs| && newNotifs[k].priority == High;
      StampedHigh(events, clock);
      feedback := Sound(if high then High else Normal);
    } else {
      posted := if silent then [] else [UpToDate(clock)];
      feedback := Quiet;
    }
  }

  class App {
    var showWelcome: bool
    var employee: Option<Employee>
    var activeTab: Tab
    var notifications: seq<Notification>
    var storage: map<string, Employee>
    var lastUpdate: int

    /** The app as it mounts: welcome screen, nobody logged in, the welcome
        notification in the log, and whatever storage already holds. */
    constructor(storage0: map<string, Employee>, clock: Clock)
      ensures showWelcome && employee.None? && activeTab == ProfileTab
      ensures notifications == [Welcome(clock)] && storage == storage0 && lastUpdate == clock.now
    {
      showWelcome := true;
      employee := None;
      activeTab := ProfileTab;
      notifications := [Welcome(clock)];
      storage := storage0;
      lastUpdate := clock.now;
    }

    /** The bell's unread count. */
    function Unread(): nat
      reads this
    {
      UnreadCount(notifications)
    }

    /** `handleRefresh(silent)`, given what `fetchEmployeeData(employee.p_id)`
        settled to. Without an employee nothing happens. A failed fetch or an
        unnamed ledger record leaves the state as it was and alerts unless
        silent. Otherwise the employee becomes the fetched snapshot, which
        also overwrites the cache entry, and the raised notifications are
        prepended. */
    method Refresh(silent: bool, fetched: Result<Employee, FetchError>, clock: Clock, locale: Locale)
      returns (feedback: Feedback)
      modifies this
      ensures showWelcome == old(showWelcome) && activeTab == old(activeTab)
      ensures old(employee).None? ==>
        && employee == old(employee) && notifications == old(notifications)
        && storage == old(storage) && lastUpdate == old(lastUpdate) && feedback == Quiet
      ensures old(employee).Some? && Settle(old(storage), old(employee).value.profile.id, fetched, locale).Err? ==>
        && employee == old(employee) && notifications == old(notifications)
        && storage == old(storage) && lastUpdate == old(lastUpdate)
        && feedback == (if silent then Quiet else Alert)
      ensures old(employee).Some? && Settle(old(storage), old(employee).value.profile.id, fetched, locale).Ok? ==>
        var (latest, events) := Settle(old(storage), old(employee).value.profile.id, fetched, locale).value;
        && employee == Some(latest)
        && storage == old(storage)[CacheKey(old(employee).value.profile.id) := latest]
        && lastUpdate == clock.now
        && notifications == Posted(events, clock, silent) + old(notifications)
        && feedback == SoundFor(events)
    {
      if employee.None? {
        return Quiet;
      }
      var id := employee.value.profile.id;
      if fetched.Err? {
        return if silent then Quiet else Alert;
      }
      var latest := fetched.value;
      var found := Events(Cached(storage, id), latest, locale);
      if found.Err? {
        assert Settle(storage, id, fetched, locale).Err?;
        return if silent then Quiet else Alert;
      }
      var events := found.value;
      assert Settle(storage, id, fetched, locale) == Ok((latest, events));
      var posted;
      posted, feedback := Announce(events, clock, silent);
      lastUpdate := clock.now;
      employee := Some(latest);
      storage := storage[CacheKey(id) := latest];
      notifications := posted + notifications;
    }

    /** `handleMarkRead(id)`. */
    method MarkNotificationsRead(id: Option<real>)
      modifies this
      ensures notifications == MarkRead(old(notifications), id)
      ensures showWelcome == old(showWelcome) && employee == old(employee) && activeTab == old(activeTab)
      ensures storage == old(storage) && lastUpdate == old(lastUpdate)
    {
      notifications := MarkRead(notifications, id);
    }

    /** `handleClearAll`. */
    method ClearAll()
      modifies this
      ensures notifications == [] && Unread() == 0
      ensures showWelcome == old(showWelcome) && employee == old(employee) && activeTab == old(activeTab)
      ensures storage == old(storage) && lastUpdate == old(lastUpdate)
    {
      notifications := [];
    }

    /** `handleLogout`: back to the welcome screen on the profile tab; the
        log and the cache stay. */
    method Logout()
      modifies this
      ensures employee.None? && showWelcome && activeTab == ProfileTab
      ensures notifications == old(notifications) && storage == old(storage) && lastUpdate == old(lastUpdate)
    {
      employee := None;
      showWelcome := true;
      activeTab := ProfileTab;
    }

    /** The welcome screen's `onEnter`. */
    method Enter()
      modifies this
      ensures !showWelcome
      ensures employee == old(employee) && activeTab == old(activeTab) && notifications == old(notifications)
      ensures storage == old(storage) && lastUpdate == old(lastUpdate)
    {
      showWelcome := false;
    }

    /** The login screen's `onLoginSuccess`. */
    method LoginSucceeded(e: Employee)
      modifies this
      ensures employee == Some(e)
      ensures showWelcome == old(showWelcome) && activeTab == old(activeTab) && notifications == old(notifications)
      ensures storage == old(storage) && lastUpdate == old(lastUpdate)
    {
      employee := Some(e);
    }
  }

  /** A cycle that succeeds keeps the employee's id, raises at most four
      notifications, and without a cache entry raises none. */
  lemma CycleSpec(storage: map<string, Employee>, current: Employee, responses: Responses, locale: Locale)
    ensures var r := Cycle(storage, current, responses, locale);
      r.Ok? ==> r.value.0.profile.id == current.profile.id && |r.value.1| <= 4
    ensures var r := Cycle(storage, current, responses, locale);
      r.Ok? && CacheKey(current.profile.id) !in storage ==> r.value.1 == []
  {
    var latest := FetchEmployeeData(responses, current.profile.id, locale);
    if latest.Ok? {
      EventsSpec(Cached(storage, current.profile.id), latest.value, locale);
    }
  }

  /** The log grows by the posted entries, all unread. */
  lemma PostedUnread(events: seq<Event>, clock: Clock, silent: bool, log: seq<Notification>)
    ensures UnreadCount(Posted(events, clock, silent) + log)
      == UnreadCount(log) + (if |events| > 0 then |events| else if silent then 0 else 1)
  {
    UnreadAppend(Posted(events, clock, silent), log);
    if |events| > 0 {
      UnreadStamped(events, clock);
    } else if !silent {
      Seqs.FilterAll([UpToDate(clock)], (x: Notification) => !x.read);
    }
  }

  /** A cycle right after a successful one, fetching the same snapshot,
      raises nothing: the first one cached exactly what the second one
      fetches. */
  lemma SecondCycleSilent(storage: map<string, Employee>, id: string, latest: Employee, locale: Locale)
    requires Settle(storage, id, Ok(latest), locale).Ok?
    requires AllKeyable(latest, latest)
    ensures Settle(storage[CacheKey(id) := latest], id, Ok(latest), locale) == Ok((latest, []))
  {
    SecondSyncSilent(latest, locale);
  }

  /** A fetched ledger record without a name passes the first sync, which
      has no cache to compare with, but once cached it makes every later
      cycle that fetches the same snapshot fail. */
  lemma UnnamedRecordBlocks(storage: map<string, Employee>, id: string, latest: Employee, locale: Locale)
    requires Settle(storage, id, Ok(latest), locale).Ok?
    requires !AllKeyable(latest, latest)
    ensures Settle(storage[CacheKey(id) := latest], id, Ok(latest), locale) == Err(UnnamedRecord)
  {
  }
}
