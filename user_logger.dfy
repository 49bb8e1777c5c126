/**
 * The visitor counters: a set of every uid ever seen, a per-uid count of open
 * socket connections, and an append-only CSV log (`timestamp,uid,action`)
 * from which the set is rebuilt when the server starts.
 */
module UserLogger {
  import opened Wrappers
  import opened Text

  datatype Action = Seen | Connect | Disconnect

  function ActionName(a: Action): string {
    match a
    case Seen => "seen"
    case Connect => "connect"
    case Disconnect => "disconnect"
  }

  /** The line `${Date.now()},${uid},${action}`. */
  function LogLine(now: nat, uid: string, a: Action): string {
    NatToString(now) + "," + uid + "," + ActionName(a)
  }

  /** The header line the log file is created with. */
  const Header := "timestamp,uid,action"

  /** The log file holding `lines`: the header, then each line with its newline. */
  function FileContent(lines: seq<string>): string {
    Join([Header] + lines + [""], "\n")
  }

  /** What `_loadFromLog` takes from one line: nothing for an empty line,
      otherwise the second comma-separated field when it is non-empty. */
  function UidOfLine(l: string): (r: Option<string>)
    ensures r.Some? ==> r.value != "" && ',' !in r.value
    ensures l == "" ==> r.None?
  {
    if l == "" then None
    else
      var parts := Split(l, ',');
      if |parts| > 1 && parts[1] != "" then Some(parts[1]) else None
  }

  /** The uids collected from the lines after the header. */
  function LoggedUids(lines: seq<string>): set<string>
    decreases |lines|
  {
    if lines == [] then {}
    else
      var last := UidOfLine(lines[|lines| - 1]);
      LoggedUids(lines[..|lines| - 1]) + (if last.Some? then {last.value} else {})
  }

  /** The uids `_loadFromLog` adds for a file's content (the first line is the header). */
  function ContentUids(content: string): set<string> {
    LoggedUids(Split(content, '\n')[1..])
  }

  /** A uid that a log line can carry back: non-empty, with no comma or newline. */
  predicate Loggable(uid: string) {
    uid != "" && ',' !in uid && '\n' !in uid
  }

  lemma SplitThree(a: string, b: string, c: string)
    requires ',' !in a && ',' !in b && ',' !in c
    ensures Split(a + "," + b + "," + c, ',') == [a, b, c]
  {
    SplitWithout(a, ',');
    SplitWithout(b, ',');
    SplitWithout(c, ',');
    SplitConcat(b, ',', c);
    assert a + "," + b + "," + c == a + [','] + (b + [','] + c);
    SplitConcat(a, ',', b + [','] + c);
  }

  lemma NameWithout(a: Action, c: char)
    requires c == ',' || c == '\n'
    ensures c !in ActionName(a)
  {
    match a
    case Seen => assert ActionName(a) == ['s', 'e', 'e', 'n'];
    case Connect => assert ActionName(a) == ['c', 'o', 'n', 'n', 'e', 'c', 't'];
    case Disconnect => assert ActionName(a) == ['d', 'i', 's', 'c', 'o', 'n', 'n', 'e', 'c', 't'];
  }

  /** Reading back a written line yields its uid, whatever the action. */
  lemma LineRoundTrip(now: nat, uid: string, a: Action)
    requires Loggable(uid)
    ensures UidOfLine(LogLine(now, uid, a)) == Some(uid)
  {
    NameWithout(a, ',');
    SplitThree(NatToString(now), uid, ActionName(a));
  }

  lemma {:induction false} LoggedUidsConcatEmpty(lines: seq<string>)
    ensures LoggedUids(lines + [""]) == LoggedUids(lines)
  {
    assert (lines + [""])[..|lines|] == lines;
  }

  datatype Logged = Logged(now: nat, uid: string, action: Action)

  function Lines(es: seq<Logged>): (ls: seq<string>)
    ensures |ls| == |es|
  {
    if es == [] then [] else Lines(es[..|es| - 1]) + [LogLine(es[|es| - 1].now, es[|es| - 1].uid, es[|es| - 1].action)]
  }

  function Uids(es: seq<Logged>): set<string> {
    set k | 0 <= k < |es| :: es[k].uid
  }

  lemma UidsSnoc(es: seq<Logged>)
    requires es != []
    ensures Uids(es) == Uids(es[..|es| - 1]) + {es[|es| - 1].uid}
  {
    var init := es[..|es| - 1];
    forall u | u in Uids(es) ensures u in Uids(init) + {es[|es| - 1].uid} {
      var k :| 0 <= k < |es| && es[k].uid == u;
      if k < |es| - 1 {
        assert init[k] == es[k];
      }
    }
    forall u | u in Uids(init) ensures u in Uids(es) {
      var k :| 0 <= k < |init| && init[k].uid == u;
      assert es[k] == init[k];
    }
  }

  lemma LoggedUidsSnoc(lines: seq<string>, l: string, uid: string)
    requires UidOfLine(l) == Some(uid)
    ensures LoggedUids(lines + [l]) == LoggedUids(lines) + {uid}
  {
    assert (lines + [l])[..|lines|] == lines;
  }

  lemma {:induction false} LinesUids(es: seq<Logged>)
    requires forall k :: 0 <= k < |es| ==> Loggable(es[k].uid)
    ensures LoggedUids(Lines(es)) == Uids(es)
    decreases |es|
  {
    if es != [] {
      var init, last := es[..|es| - 1], es[|es| - 1];
      LinesUids(init);
      LineRoundTrip(last.now, last.uid, last.action);
      LoggedUidsSnoc(Lines(init), LogLine(last.now, last.uid, last.action), last.uid);
      UidsSnoc(es);
    }
  }

  /** What the server writes it reads back after a restart: every uid of every
      line, so uids first seen through a socket `connect` are counted as seen too. */
  lemma LogRoundTrip(es: seq<Logged>)
    requires forall k :: 0 <= k < |es| ==> Loggable(es[k].uid)
    ensures ContentUids(FileContent(Lines(es))) == Uids(es)
  {
    forall k | 0 <= k < |Lines(es)| ensures '\n' !in Lines(es)[k] {
      LineWithoutNewline(es, k);
    }
    HeaderWithout();
    SplitBody(Header, Lines(es));
    LoggedUidsConcatEmpty(Lines(es));
    LinesUids(es);
  }

  lemma HeaderWithout()
    ensures '\n' !in Header
  {
    assert forall i :: 0 <= i < |Header| ==> Header[i] != '\n';
  }

  lemma SplitBody(h: string, lines: seq<string>)
    requires '\n' !in h && forall k :: 0 <= k < |lines| ==> '\n' !in lines[k]
    ensures Split(Join([h] + lines + [""], "\n"), '\n')[1..] == lines + [""]
  {
    PartsWithoutNewline(h, lines);
    SplitBodyParts(h, lines);
  }

  lemma SplitBodyParts(h: string, lines: seq<string>)
    requires forall k :: 0 <= k < |[h] + lines + [""]| ==> '\n' !in ([h] + lines + [""])[k]
    ensures Split(Join([h] + lines + [""], "\n"), '\n')[1..] == lines + [""]
  {
    SplitJoin([h] + lines + [""], '\n');
    assert ([h] + lines + [""])[1..] == lines + [""];
  }

  lemma PartsWithoutNewline(h: string, lines: seq<string>)
    requires '\n' !in h && forall k :: 0 <= k < |lines| ==> '\n' !in lines[k]
    ensures forall k :: 0 <= k < |[h] + lines + [""]| ==> '\n' !in ([h] + lines + [""])[k]
  {
    var parts := [h] + lines + [""];
    forall k | 0 <= k < |parts| ensures '\n' !in parts[k] {
      if 0 < k < |parts| - 1 {
        assert parts[k] == lines[k - 1];
      } else if k == |parts| - 1 {
        assert parts[k] == [];
      }
    }
  }

  lemma LineWithoutNewline(es: seq<Logged>, k: nat)
    requires k < |es| && Loggable(es[k].uid)
    ensures '\n' !in Lines(es)[k]
  {
    LinesAt(es, k);
    NameWithout(es[k].action, '\n');
    assert '\n' !in NatToString(es[k].now);
  }

  lemma {:induction false} LinesAt(es: seq<Logged>, k: nat)
    requires k < |es|
    ensures Lines(es)[k] == LogLine(es[k].now, es[k].uid, es[k].action)
    decreases |es|
  {
    if k < |es| - 1 {
      LinesAt(es[..|es| - 1], k);
    }
  }

  // ------------------------------------------------------- connection counts

  /** No uid is kept with a count of zero or less. */
  predicate Positive(active: map<string, nat>) {
    forall u :: u in active ==> active[u] >= 1
  }

  function CountOf(active: map<string, nat>, uid: string): nat {
    if uid in active then active[uid] else 0
  }

  /** `incrementActive`: the count goes up by one, absent counting as zero. */
  function Incremented(active: map<string, nat>, uid: string): map<string, nat> {
    if uid == "" then active else active[uid := CountOf(active, uid) + 1]
  }

  /** `decrementActive`: the entry is removed when the previous count is at most
      one (absent included), otherwise it goes down by one. */
  function Decremented(active: map<string, nat>, uid: string): map<string, nat> {
    if uid == "" then active
    else if CountOf(active, uid) <= 1 then active - {uid}
    else active[uid := CountOf(active, uid) - 1]
  }

  lemma IncrementedCounts(active: map<string, nat>, uid: string, v: string)
    requires Positive(active)
    ensures Positive(Incremented(active, uid))
    ensures CountOf(Incremented(active, uid), v) == CountOf(active, v) + (if v == uid && uid != "" then 1 else 0)
    ensures |Incremented(active, uid)| == |active| + (if uid != "" && uid !in active then 1 else 0)
  {
  }

  lemma DecrementedCounts(active: map<string, nat>, uid: string, v: string)
    requires Positive(active)
    ensures Positive(Decremented(active, uid))
    ensures CountOf(Decremented(active, uid), v) == if v == uid && uid != "" && CountOf(active, v) > 0 then CountOf(active, v) - 1 else CountOf(active, v)
    ensures |Decremented(active, uid)| == |active| - (if uid != "" && CountOf(active, uid) == 1 then 1 else 0)
  {
    if uid != "" && CountOf(active, uid) == 1 {
      assert (active - {uid}).Keys == active.Keys - {uid};
    }
  }

  /** A disconnect undoes a connect. */
  lemma DecrementUndoesIncrement(active: map<string, nat>, uid: string)
    requires Positive(active)
    ensures Decremented(Incremented(active, uid), uid) == active
  {
  }

  class UserLogger {
    var unique: set<string>
    var active: map<string, nat>
    /** The lines this process has appended to the log file. */
    var log: seq<string>

    ghost predicate Valid()
      reads this
    {
      "" !in unique && "" !in active && Positive(active)
    }

    /** The counters after start-up, given the log file's content (None when it cannot be read). */
    constructor(content: Option<string>)
      ensures Valid()
      ensures unique == (if content.Some? then ContentUids(content.value) else {})
      ensures active == map[] && log == []
    {
      unique := {};
      active := map[];
      log := [];
      new;
      LoadFromLog(content);
    }

    /** `_loadFromLog`: skips the header and every empty line, adds the second field of each other line. */
    method LoadFromLog(content: Option<string>)
      requires Valid()
      modifies this
      ensures Valid()
      ensures unique == old(unique) + (if content.Some? then ContentUids(content.value) else {})
      ensures active == old(active) && log == old(log)
    {
      if content.None? {
        return;
      }
      var lines := Split(content.value, '\n')[1..];
      var i := 0;
      while i < |lines|
        invariant 0 <= i <= |lines|
        invariant unique == old(unique) + LoggedUids(lines[..i])
        invariant "" !in unique
        invariant active == old(active) && log == old(log)
      {
        assert lines[..i + 1][..i] == lines[..i];
        var l := lines[i];
        if l != "" {
          var parts := Split(l, ',');
          if |parts| > 1 && parts[1] != "" {
            unique := unique + {parts[1]};
          }
        }
        i := i + 1;
      }
      assert lines[..i] == lines;
    }

    /** `recordUid`: the first sighting of a uid adds it and logs one `seen` line;
        any later call, and any call with the empty uid, changes nothing. */
    method RecordUid(uid: string, now: nat)
      requires Valid()
      modifies this
      ensures Valid()
      ensures uid == "" || uid in old(unique) ==> unique == old(unique) && log == old(log)
      ensures uid != "" && uid !in old(unique) ==>
        unique == old(unique) + {uid} && log == old(log) + [LogLine(now, uid, Seen)]
      ensures active == old(active)
    {
      if uid == "" {
        return;
      }
      if uid !in unique {
        unique := unique + {uid};
        log := log + [LogLine(now, uid, Seen)];
      }
    }

    method IncrementActive(uid: string, now: nat)
      requires Valid()
      modifies this
      ensures Valid()
      ensures active == Incremented(old(active), uid)
      ensures log == old(log) + (if uid == "" then [] else [LogLine(now, uid, Connect)])
      ensures unique == old(unique)
    {
      if uid == "" {
        return;
      }
      var prev := if uid in active then active[uid] else 0;
      active := active[uid := prev + 1];
      log := log + [LogLine(now, uid, Connect)];
    }

    method DecrementActive(uid: string, now: nat)
      requires Valid()
      modifies this
      ensures Valid()
      ensures active == Decremented(old(active), uid)
      ensures log == old(log) + (if uid == "" then [] else [LogLine(now, uid, Disconnect)])
      ensures unique == old(unique)
    {
      if uid == "" {
        return;
      }
      var prev := if uid in active then active[uid] else 0;
      if prev <= 1 {
        active := active - {uid};
      } else {
        active := active[uid := prev - 1];
      }
      log := log + [LogLine(now, uid, Disconnect)];
    }

    /** The number of distinct uids seen: zero exactly when none was recorded. */
    function UniqueCount(): (n: nat)
      reads this
      ensures n == 0 <==> unique == {}
    {
      |unique|
    }

    /** The number of uids with at least one open connection. */
    function ActiveCount(): (n: nat)
      reads this
      ensures Valid() ==> n == |set u | u in active && active[u] >= 1|
    {
      assert Valid() ==> (set u | u in active && active[u] >= 1) == active.Keys;
      |active|
    }
  }
}
