/** The dashboard's summary statistics and its admin flag. */
module Dashboard {
  import opened Common

  /** The stat cards' values. */
  datatype Stats = Stats(
    totalTasks: nat,
    todayTasks: nat,
    completedTasks: nat,
    inReviewTasks: nat,
    totalUsers: nat,
    totalTeams: nat)

  /** The stats before any data has arrived. */
  const InitialStats := Stats(0, 0, 0, 0, 0, 0)

  const LoadFailedText := "Failed to load dashboard data"

  /** The answer to a counted query: its rows (here the status of each
      task row) and the exact count, each of which may be null. The query's
      error field is not read by the page. */
  datatype CountedRows = CountedRows(data: Option<seq<string>>, count: Option<nat>)

  /** The three counted queries run together; `Threw` stands for the
      combined request rejecting. */
  datatype DashboardResponse =
    | Answered(tasks: CountedRows, users: Option<nat>, teams: Option<nat>)
    | Threw

  /** `rows.filter(t => t.status === status).length`: how many rows carry
      that status. */
  function CountStatus(rows: seq<string>, status: string): (n: nat)
    ensures n == multiset(rows)[status]
    decreases |rows|
  {
    if rows == [] then 0
    else
      assert rows == [rows[0]] + rows[1..];
      (if rows[0] == status then 1 else 0) + CountStatus(rows[1..], status)
  }

  /** Rows of three different statuses are never more than all the rows. */
  lemma {:induction false} CountsBounded(rows: seq<string>, a: string, b: string, c: string)
    requires a != b && b != c && a != c
    ensures CountStatus(rows, a) + CountStatus(rows, b) + CountStatus(rows, c) <= |rows|
    decreases |rows|
  {
    if rows != [] {
      CountsBounded(rows[1..], a, b, c);
    }
  }

  /** `count || 0`: the server's count, or 0 when it is absent. */
  function OrZero(count: Option<nat>): (n: nat)
    ensures count.Some? ==> n == count.value
    ensures count.None? ==> n == 0
  {
    count.GetOr(0)
  }

  /** The stats `fetchDashboardData` sets from its three answers. The status
      counts are over the returned rows (none when the rows are null), the
      totals are the server's counts or 0, and the three status counts
      together never exceed the rows returned. */
  function DeriveStats(tasks: CountedRows, users: Option<nat>, teams: Option<nat>): (r: Stats)
    ensures var rows := tasks.data.GetOr([]);
      && r.todayTasks == multiset(rows)["today"]
      && r.completedTasks == multiset(rows)["done"]
      && r.inReviewTasks == multiset(rows)["review"]
      && r.todayTasks + r.completedTasks + r.inReviewTasks <= |rows|
    ensures tasks.data.None? ==> r.todayTasks == r.completedTasks == r.inReviewTasks == 0
    ensures r.totalTasks == tasks.count.GetOr(0)
    ensures r.totalUsers == users.GetOr(0) && r.totalTeams == teams.GetOr(0)
  {
    var rows := tasks.data.GetOr([]);
    CountsBounded(rows, "today", "done", "review");
    Stats(OrZero(tasks.count), CountStatus(rows, "today"), CountStatus(rows, "done"),
          CountStatus(rows, "review"), OrZero(users), OrZero(teams))
  }

  /** The dashboard's component state. */
  class DashboardPage {
    var stats: Stats
    var loading: bool
    var isAdmin: bool
    var toasts: seq<Toast>

    /** The state at mount: zero stats, loading, not admin. */
    constructor ()
      ensures stats == InitialStats && loading && !isAdmin && toasts == []
    {
      stats := InitialStats;
      loading := true;
      isAdmin := false;
      toasts := [];
    }

    /** `fetchDashboardData` with the combined answer: the stats are derived
        from it, or kept when the request threw; loading ends either way. */
    method FetchDashboardData(response: DashboardResponse)
      modifies this
      ensures response.Answered? ==> stats == DeriveStats(response.tasks, response.users, response.teams)
                                     && toasts == old(toasts)
      ensures response.Threw? ==> stats == old(stats) && toasts == old(toasts) + [Error(LoadFailedText)]
      ensures !loading && isAdmin == old(isAdmin)
    {
      if response.Answered? {
        stats := DeriveStats(response.tasks, response.users, response.teams);
      } else {
        toasts := toasts + [Error(LoadFailedText)];
      }
      loading := false;
    }

    /** `checkAdminRole`: with no user nothing happens; otherwise the flag
        says whether the single-row lookup of the user's admin role
        returned a row. */
    method CheckAdminRole(userId: Option<string>, adminRow: Option<string>)
      modifies this`isAdmin
      ensures userId.None? ==> isAdmin == old(isAdmin)
      ensures userId.Some? ==> isAdmin == adminRow.Some?
    {
      if userId.None? {
        return;
      }
      isAdmin := adminRow.Some?;
    }
  }
}
