/** The administrators' activity log (`ActivityLogTable`): the join of the
    fetched log rows with the user profiles, the search over the joined rows,
    and the labels shown for each row. The two queries are represented by
    their outcome. */
module ActivityLogTable {
  import opened Text
  import Seqs

  /** A metadata value: a string, or any other JSON value given by its
      `JSON.stringify` text. */
  datatype MetaValue = Str(s: string) | Other(json: string)

  datatype ActivityLog = ActivityLog(
    id: string, userId: string, action: string,
    entityType: Option<string>, entityId: Option<string>,
    metadata: Option<seq<(string, MetaValue)>>, createdAt: string,
    userEmail: Option<string>, userName: Option<string>)

  /** A row of the `id, email, display_name` profile query. */
  datatype Profile = Profile(id: string, email: Option<string>, displayName: Option<string>)

  const UnknownUser: string := "Unknown"

  /** `profiles.find(p => p.id === userId)`: the first profile with the id. */
  function FindProfile(profiles: seq<Profile>, userId: string): (r: Option<Profile>)
    ensures r.None? <==> forall k :: 0 <= k < |profiles| ==> profiles[k].id != userId
    ensures r.Some? ==>
      exists k :: 0 <= k < |profiles| && profiles[k] == r.value && r.value.id == userId &&
        forall j :: 0 <= j < k ==> profiles[j].id != userId
  {
    if profiles == [] then None
    else if profiles[0].id == userId then Some(profiles[0])
    else
      var r := FindProfile(profiles[1..], userId);
      if r.Some? then
        var k :| 0 <= k < |profiles[1..]| && profiles[1..][k] == r.value && r.value.id == userId &&
          forall j :: 0 <= j < k ==> profiles[1..][j].id != userId;
        assert profiles[k + 1] == r.value;
        assert forall j :: 0 <= j < k + 1 ==> profiles[j].id != userId by {
          forall j | 0 <= j < k + 1 ensures profiles[j].id != userId {
            if j > 0 { assert profiles[j] == profiles[1..][j - 1]; }
          }
        }
        r
      else r
  }

  /** One joined row: the log with the e-mail of its user's profile (or
      `Unknown`) and the display name of that profile. */
  function Join(profiles: Option<seq<Profile>>, log: ActivityLog): ActivityLog {
    var user := if profiles.Some? then FindProfile(profiles.value, log.userId) else None;
    log.(userEmail := Some(OrElse(if user.Some? then user.value.email else None, UnknownUser)),
         userName := if user.Some? then user.value.displayName else None)
  }

  /** `logsWithUsers`: every fetched log, joined. */
  function JoinAll(logs: Option<seq<ActivityLog>>, profiles: Option<seq<Profile>>): seq<ActivityLog> {
    Seqs.Map(if logs.Some? then logs.value else [], (log: ActivityLog) => Join(profiles, log))
  }

  /** The join keeps the number and order of the logs and every field but the
      two user fields; the e-mail is that of the first profile with the log's
      user id when it has a non-empty one, else `Unknown`. */
  lemma JoinAllSpec(logs: seq<ActivityLog>, profiles: seq<Profile>)
    ensures |JoinAll(Some(logs), Some(profiles))| == |logs|
    ensures forall k :: 0 <= k < |logs| ==>
      var j := JoinAll(Some(logs), Some(profiles))[k];
      var user := FindProfile(profiles, logs[k].userId);
      j.(userEmail := logs[k].userEmail, userName := logs[k].userName) == logs[k] &&
      (user.None? ==> j.userEmail == Some(UnknownUser) && j.userName.None?) &&
      (user.Some? ==>
        j.userName == user.value.displayName &&
        j.userEmail == Some(if user.value.email.Some? && user.value.email.value != [] then user.value.email.value else UnknownUser))
  {
  }

  /** Without profile rows every user is unknown; without log rows nothing
      shows, whatever the profiles are. */
  lemma JoinWithoutRows(logs: seq<ActivityLog>)
    ensures forall profiles :: JoinAll(None, profiles) == []
    ensures forall k :: 0 <= k < |logs| ==> JoinAll(Some(logs), None)[k].userEmail == Some(UnknownUser)
  {
  }

  /** The search test of one row: the lower-cased term occurs in the lower-cased
      action, entity type, user e-mail or user name (the last three when present). */
  predicate MatchesSearch(log: ActivityLog, term: string) {
    var t := Lower(term);
    Contains(Lower(log.action), t) ||
    (log.entityType.Some? && Contains(Lower(log.entityType.value), t)) ||
    (log.userEmail.Some? && Contains(Lower(log.userEmail.value), t)) ||
    (log.userName.Some? && Contains(Lower(log.userName.value), t))
  }

  /** `filteredLogs`. */
  function FilteredLogs(logs: seq<ActivityLog>, term: string): seq<ActivityLog> {
    Seqs.Filter(logs, (l: ActivityLog) => MatchesSearch(l, term))
  }

  /** An empty term keeps every row; otherwise a row is kept exactly when it
      matches, and the kept rows stay in their order. */
  lemma FilteredLogsSpec(logs: seq<ActivityLog>, term: string, log: ActivityLog)
    ensures term == [] ==> FilteredLogs(logs, term) == logs
    ensures log in FilteredLogs(logs, term) <==> log in logs && MatchesSearch(log, term)
    ensures forall a, b :: FilteredLogs(a + b, term) == FilteredLogs(a, term) + FilteredLogs(b, term)
  {
    if term == [] {
      forall k | 0 <= k < |logs| ensures MatchesSearch(logs[k], term) {
        ContainsIff(Lower(logs[k].action), Lower(term));
      }
      Seqs.FilterKeepsAll(logs, (l: ActivityLog) => MatchesSearch(l, term));
    }
    Seqs.FilterMembership(logs, (l: ActivityLog) => MatchesSearch(l, term), log);
    forall a, b ensures FilteredLogs(a + b, term) == FilteredLogs(a, term) + FilteredLogs(b, term) {
      Seqs.FilterConcat(a, b, (l: ActivityLog) => MatchesSearch(l, term));
    }
  }

  datatype BadgeVariant = Default | Secondary | Destructive | Outline

  /** `getActionBadgeVariant`. */
  function ActionBadgeVariant(action: string): BadgeVariant {
    if action == "delete" then Destructive
    else if action == "create" then Default
    else if action == "login" || action == "logout" then Secondary
    else Outline
  }

  /** Each variant is given to exactly the actions listed for it. */
  lemma ActionBadgeVariantIff(action: string)
    ensures ActionBadgeVariant(action) == Destructive <==> action == "delete"
    ensures ActionBadgeVariant(action) == Default <==> action == "create"
    ensures ActionBadgeVariant(action) == Secondary <==> action == "login" || action == "logout"
    ensures ActionBadgeVariant(action) == Outline <==>
      action != "delete" && action != "create" && action != "login" && action != "logout"
  {
  }

  /** `s.slice(0, n)`. */
  function Prefix(s: string, n: nat): (r: string)
    ensures |r| == if |s| < n then |s| else n
    ensures r == s[..|r|]
  {
    if |s| <= n then s else s[..n]
  }

  /** The text shown for one metadata value. */
  function ShowValue(v: MetaValue): string {
    match v
    case Str(s) => Prefix(s, 30)
    case Other(json) => json
  }

  /** `formatMetadata`: nothing for null metadata, else the first two entries
      as key and shown value. */
  function FormatMetadata(metadata: Option<seq<(string, MetaValue)>>): (r: Option<seq<(string, string)>>)
    ensures r.None? <==> metadata.None?
    ensures r.Some? ==> |r.value| <= 2 && |r.value| <= |metadata.value|
  {
    if metadata.None? then None
    else
      var entries := if |metadata.value| <= 2 then metadata.value else metadata.value[..2];
      Some(Seqs.Map(entries, (e: (string, MetaValue)) => (e.0, ShowValue(e.1))))
  }

  /** The shown entries are the first entries in order, with their keys; a
      string value is cut to its first 30 characters and any other value is
      shown as its JSON text; an object with two entries or more shows two. */
  lemma FormatMetadataSpec(metadata: seq<(string, MetaValue)>)
    ensures var r := FormatMetadata(Some(metadata)).value;
      |r| == (if |metadata| < 2 then |metadata| else 2) &&
      forall k :: 0 <= k < |r| ==>
        r[k].0 == metadata[k].0 &&
        (metadata[k].1.Str? ==> r[k].1 == metadata[k].1.s[..|r[k].1|] && |r[k].1| == (if |metadata[k].1.s| < 30 then |metadata[k].1.s| else 30)) &&
        (metadata[k].1.Other? ==> r[k].1 == metadata[k].1.json)
  {
  }

  /** `s.replace(from, to)` with a one-character string pattern: the first
      occurrence only is replaced. */
  function ReplaceFirst(s: string, from: char, to: char): (r: string)
    ensures |r| == |s|
  {
    if s == [] then []
    else if s[0] == from then [to] + s[1..]
    else [s[0]] + ReplaceFirst(s[1..], from, to)
  }

  /** The action label: the first `_` of the action becomes a space. */
  function ActionLabel(action: string): string {
    ReplaceFirst(action, '_', ' ')
  }

  /** Without an occurrence nothing changes. */
  lemma {:induction false} ReplaceFirstAbsent(s: string, from: char, to: char)
    requires forall k :: 0 <= k < |s| ==> s[k] != from
    ensures ReplaceFirst(s, from, to) == s
  {
    if s != [] {
      ReplaceFirstAbsent(s[1..], from, to);
    }
  }

  /** Exactly the first occurrence is replaced; every later one is kept. */
  lemma {:induction false} ReplaceFirstAt(s: string, from: char, to: char, i: nat)
    requires i < |s| && s[i] == from
    requires forall k :: 0 <= k < i ==> s[k] != from
    ensures ReplaceFirst(s, from, to) == s[..i] + [to] + s[i + 1..]
  {
    if i > 0 {
      ReplaceFirstAt(s[1..], from, to, i - 1);
      assert s[1..][..i - 1] == s[1..i] && s[1..][i..] == s[i + 1..];
      assert s[..i] == [s[0]] + s[1..i];
    }
  }

  /** Around the first occurrence: the part before it, untouched, the
      replacement, and the rest, untouched. */
  lemma ReplaceFirstSplit(before: string, after: string, from: char, to: char)
    requires forall k :: 0 <= k < |before| ==> before[k] != from
    ensures ReplaceFirst(before + [from] + after, from, to) == before + [to] + after
  {
    var s := before + [from] + after;
    ReplaceFirstAt(s, from, to, |before|);
    assert s[..|before|] == before && s[|before| + 1..] == after;
  }

  /** `profile_update` shows as `profile update`. */
  lemma ProfileUpdateLabel()
    ensures ActionLabel("profile_update") == "profile update"
  {
    var before: string, after: string := "profile", "update";
    assert "profile_update" == before + ['_'] + after;
    assert "profile update" == before + [' '] + after;
    ReplaceFirstSplit(before, after, '_', ' ');
  }

  /** Of two underscores only the first becomes a space. */
  lemma SecondUnderscoreKept()
    ensures ActionLabel("a_b_c") == "a b_c"
  {
    var before: string, after: string := "a", "b_c";
    assert "a_b_c" == before + ['_'] + after;
    assert "a b_c" == before + [' '] + after;
    ReplaceFirstSplit(before, after, '_', ' ');
  }

  class LogTable {
    var logs: seq<ActivityLog>
    var isLoading: bool
    var searchTerm: string

    constructor ()
      ensures logs == [] && isLoading && searchTerm == []
    {
      logs, isLoading, searchTerm := [], true, [];
    }

    /** `fetchLogs` given the outcome of the two queries: a failed query leaves
        the rows as they were; otherwise the rows become the joined logs.
        Loading ends either way. */
    method FetchLogs(logsFailed: bool, logsData: Option<seq<ActivityLog>>,
                     profilesFailed: bool, profiles: Option<seq<Profile>>)
      modifies this
      ensures logsFailed || profilesFailed ==> logs == old(logs)
      ensures !logsFailed && !profilesFailed ==> logs == JoinAll(logsData, profiles)
      ensures !isLoading && searchTerm == old(searchTerm)
    {
      if !logsFailed && !profilesFailed {
        logs := JoinAll(logsData, profiles);
      }
      isLoading := false;
    }

    /** The rows shown for the current search: all rows for an empty term,
        otherwise exactly the rows that match it, in the order of the log. */
    method Shown() returns (rows: seq<ActivityLog>)
      ensures rows == FilteredLogs(logs, searchTerm)
      ensures searchTerm == [] ==> rows == logs
      ensures forall l :: l in rows <==> l in logs && MatchesSearch(l, searchTerm)
      ensures |rows| <= |logs|
    {
      rows := FilteredLogs(logs, searchTerm);
      forall l ensures l in rows <==> l in logs && MatchesSearch(l, searchTerm) {
        FilteredLogsSpec(logs, searchTerm, l);
      }
      if logs != [] {
        FilteredLogsSpec(logs, searchTerm, logs[0]);
      }
    }
  }
}
