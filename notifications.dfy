/** The portal's notification log (`AppNotification` in `types.ts`) and the
    pure updates `App.tsx` applies to it: stamping new events, marking read
    and counting unread entries. */
module Notifications {
  import opened Wrappers
  import opened Seqs

  datatype Kind = SalaryKind | AdminKind | GeneralKind | SystemKind

  datatype Priority = High | Normal | Low

  datatype Notification = Notification(
    id: real, title: string, message: string, time: string,
    timestamp: int, read: bool, kind: Kind, priority: Priority)

  /** The range of `Math.random()`. */
  type Unit = r: real | 0.0 <= r < 1.0

  /** What a refresh cycle reads from the clock: `Date.now()`, the
      locale-formatted time of day, and the `k`-th `Math.random()` draw. */
  datatype Clock = Clock(now: int, timeLabel: string, random: nat -> Unit)

  /** A notification's content before it is stamped. */
  datatype Event = Event(title: string, message: string, kind: Kind, priority: Priority)

  /** The `k`-th notification a cycle pushes: id `Date.now() + Math.random()`,
      unread. */
  function Stamp(e: Event, clock: Clock, k: nat): (n: Notification)
    ensures !n.read && n.timestamp == clock.now && n.time == clock.timeLabel
    ensures clock.now as real <= n.id < clock.now as real + 1.0
    ensures n.title == e.title && n.message == e.message && n.kind == e.kind && n.priority == e.priority
  {
    Notification(clock.now as real + clock.random(k), e.title, e.message, clock.timeLabel, clock.now, false, e.kind, e.priority)
  }

  /** The notifications of a cycle's events, in generation order. */
  function StampAll(events: seq<Event>, clock: Clock): (ns: seq<Notification>)
    ensures |ns| == |events|
    ensures forall k :: 0 <= k < |ns| ==> ns[k] == Stamp(events[k], clock, k)
  {
    seq(|events|, k requires 0 <= k < |events| => Stamp(events[k], clock, k))
  }

  /** The entry seeded into the log when the app starts. */
  function Welcome(clock: Clock): Notification {
    Notification(1.0, "أهلاً بك", "مرحباً بك في بوابة الخيرات الإلكترونية المحدثة.",
      "الآن", clock.now, false, SystemKind, Normal)
  }

  /** The entry a manual refresh adds when nothing changed. */
  function UpToDate(clock: Clock): Notification {
    Notification(clock.now as real, "تم التحديث", "تم التحقق من جميع السجلات، البيانات مطابقة.",
      clock.timeLabel, clock.now, false, SystemKind, Low)
  }

  /** JavaScript truthiness of the optional numeric id: present and not 0. */
  predicate Truthy(id: Option<real>) {
    id.Some? && id.value != 0.0
  }

  /** `handleMarkRead(id)`: with a truthy id, mark read the entries with that
      id; otherwise mark every entry read. */
  function MarkRead(ns: seq<Notification>, id: Option<real>): seq<Notification> {
    seq(|ns|, k requires 0 <= k < |ns| =>
      if !Truthy(id) || ns[k].id == id.value then ns[k].(read := true) else ns[k])
  }

  /** Marking keeps the log's length and every field but `read`; an entry
      ends up read exactly when it was read already or was targeted. */
  lemma MarkReadSpec(ns: seq<Notification>, id: Option<real>)
    ensures |MarkRead(ns, id)| == |ns|
    ensures forall k :: 0 <= k < |ns| ==> MarkRead(ns, id)[k].(read := ns[k].read) == ns[k]
    ensures forall k :: 0 <= k < |ns| ==>
      MarkRead(ns, id)[k].read == (ns[k].read || !Truthy(id) || ns[k].id == id.value)
  {
  }

  /** Marking twice is marking once. */
  lemma MarkReadIdempotent(ns: seq<Notification>, id: Option<real>)
    ensures MarkRead(MarkRead(ns, id), id) == MarkRead(ns, id)
  {
  }

  /** The unread count shown on the bell. */
  function UnreadCount(ns: seq<Notification>): (n: nat)
    ensures n <= |ns|
  {
    |Filter(ns, (x: Notification) => !x.read)|
  }

  /** The count of a log made of two parts is the sum of their counts. */
  lemma UnreadAppend(a: seq<Notification>, b: seq<Notification>)
    ensures UnreadCount(a + b) == UnreadCount(a) + UnreadCount(b)
  {
    FilterAppend(a, b, (x: Notification) => !x.read);
  }

  /** Freshly stamped notifications are all unread. */
  lemma UnreadStamped(events: seq<Event>, clock: Clock)
    ensures UnreadCount(StampAll(events, clock)) == |events|
  {
    var ns := StampAll(events, clock);
    FilterAll(ns, (x: Notification) => !x.read);
  }

  /** After marking all, nothing is unread; after marking some, no more is
      unread than before. */
  lemma UnreadAfterMarkRead(ns: seq<Notification>, id: Option<real>)
    ensures !Truthy(id) ==> UnreadCount(MarkRead(ns, id)) == 0
    ensures UnreadCount(MarkRead(ns, id)) <= UnreadCount(ns)
  {
    var p := (x: Notification) => !x.read;
    if !Truthy(id) {
      FilterNone(MarkRead(ns, id), p);
    }
    UnreadMarkedFewer(ns, MarkRead(ns, id));
  }

  /** Position by position at least as read means no more unread. */
  lemma {:induction false} UnreadMarkedFewer(ns: seq<Notification>, ms: seq<Notification>)
    requires |ms| == |ns|
    requires forall k :: 0 <= k < |ns| ==> ns[k].read ==> ms[k].read
    ensures UnreadCount(ms) <= UnreadCount(ns)
  {
    if ns != [] {
      UnreadMarkedFewer(ns[1..], ms[1..]);
      assert ns == [ns[0]] + ns[1..] && ms == [ms[0]] + ms[1..];
      UnreadAppend([ns[0]], ns[1..]);
      UnreadAppend([ms[0]], ms[1..]);
    }
  }
}
