/**
 * The dashboard (src/pages/Dashboard.tsx): the status and search filters
 * over the loaded missions, and the summary counters.
 */
module Dashboard {
  import opened Types
  import opened SeqUtil
  import opened Workflow

  /** The status selector: "all", the pseudo-status "pending", or one status spelled as in the store. */
  predicate StatusKeeps(statusFilter: string, m: MissionOrder)
  {
    if statusFilter == "all" then true
    else if statusFilter == "pending" then IsPendingStatus(m.status)
    else StatusName(m.status) == statusFilter
  }

  /**
   * The search box: an empty query keeps everything; otherwise the
   * lower-cased query must occur in the lower-cased title, reference or
   * destination.
   */
  predicate SearchKeeps(searchQuery: string, m: MissionOrder)
  {
    searchQuery == "" ||
    var q := Lower(searchQuery);
    Contains(Lower(m.title), q) || Contains(Lower(m.reference), q) || Contains(Lower(m.destination), q)
  }

  function MatchesFn(statusFilter: string, searchQuery: string): MissionOrder -> bool
  {
    (m: MissionOrder) => StatusKeeps(statusFilter, m) && SearchKeeps(searchQuery, m)
  }

  function StatusFn(statusFilter: string): MissionOrder -> bool
  {
    (m: MissionOrder) => StatusKeeps(statusFilter, m)
  }

  function SearchFn(searchQuery: string): MissionOrder -> bool
  {
    (m: MissionOrder) => SearchKeeps(searchQuery, m)
  }

  function PendingFn(): MissionOrder -> bool
  {
    (m: MissionOrder) => IsPendingStatus(m.status)
  }

  function StatusIsFn(name: string): MissionOrder -> bool
  {
    (m: MissionOrder) => StatusName(m.status) == name
  }

  function TextMatchFn(query: string): MissionOrder -> bool
  {
    (m: MissionOrder) => Contains(Lower(m.title), query) || Contains(Lower(m.reference), query) || Contains(Lower(m.destination), query)
  }

  /**
   * filterMissions: start from all missions, narrow by status unless the
   * filter is "all", then by the search query unless it is empty. The
   * result keeps exactly the missions passing both filters, in their
   * original order.
   */
  method FilterMissions(missions: seq<MissionOrder>, statusFilter: string, searchQuery: string)
    returns (filtered: seq<MissionOrder>)
    ensures filtered == Filter(missions, MatchesFn(statusFilter, searchQuery))
    ensures forall m :: m in filtered <==>
              m in missions && StatusKeeps(statusFilter, m) && SearchKeeps(searchQuery, m)
    ensures Subseq(filtered, missions)
  {
    filtered := missions;
    if statusFilter != "all" {
      if statusFilter == "pending" {
        filtered := Filter(filtered, PendingFn());
      } else {
        filtered := Filter(filtered, StatusIsFn(statusFilter));
      }
      FilterExt(missions, StatusFn(statusFilter), if statusFilter == "pending" then PendingFn() else StatusIsFn(statusFilter));
    } else {
      FilterKeepsAll(missions, StatusFn(statusFilter));
    }
    ghost var afterStatus := filtered;
    if searchQuery != "" {
      var query := Lower(searchQuery);
      filtered := Filter(filtered, TextMatchFn(query));
      FilterExt(afterStatus, SearchFn(searchQuery), TextMatchFn(query));
    } else {
      FilterKeepsAll(afterStatus, SearchFn(searchQuery));
    }
    FilterFilter(missions, StatusFn(statusFilter), SearchFn(searchQuery), MatchesFn(statusFilter, searchQuery));
  }

  /** The dashboard's counters. */
  datatype Stats = Stats(total: nat, pending: nat, approved: nat, rejected: nat, totalAmount: int)

  function ApprovedFn(): MissionOrder -> bool
  {
    (m: MissionOrder) => m.status == Approved || m.status == Paid
  }

  function RejectedFn(): MissionOrder -> bool
  {
    (m: MissionOrder) => m.status == Rejected
  }

  function EstimatedAmount(m: MissionOrder): int
  {
    m.estimatedAmount
  }

  /** The stats computed after loading: "approved" counts approved and paid missions. */
  function ComputeStats(missions: seq<MissionOrder>): Stats
  {
    Stats(|missions|, Count(missions, PendingFn()), Count(missions, ApprovedFn()),
          Count(missions, RejectedFn()), Sum(missions, EstimatedAmount))
  }

  /** The three status counters never exceed the total: no mission is counted twice. */
  lemma StatsBounded(missions: seq<MissionOrder>)
    ensures var st := ComputeStats(missions);
            st.pending + st.approved + st.rejected <= st.total
  {
    DisjointCountsBounded(missions, PendingFn(), ApprovedFn(), RejectedFn());
  }

  /**
   * The counters agree with the list filter: "pending" and "rejected"
   * count what the matching status filter shows with an empty search, and
   * "approved" counts what the "approved" and "paid" filters show together.
   */
  lemma StatsAgreeWithFilter(missions: seq<MissionOrder>)
    ensures ComputeStats(missions).pending == |Filter(missions, MatchesFn("pending", ""))|
    ensures ComputeStats(missions).rejected == |Filter(missions, MatchesFn("rejected", ""))|
    ensures ComputeStats(missions).approved ==
            |Filter(missions, MatchesFn("approved", ""))| + |Filter(missions, MatchesFn("paid", ""))|
  {
    PendingCountMatches(missions);
    RejectedCountMatches(missions);
    ApprovedCountMatches(missions);
  }

  lemma PendingCountMatches(missions: seq<MissionOrder>)
    ensures Count(missions, PendingFn()) == |Filter(missions, MatchesFn("pending", ""))|
  {
    FilterExt(missions, PendingFn(), MatchesFn("pending", ""));
  }

  lemma RejectedCountMatches(missions: seq<MissionOrder>)
    ensures Count(missions, RejectedFn()) == |Filter(missions, MatchesFn("rejected", ""))|
  {
    forall m ensures RejectedFn()(m) == MatchesFn("rejected", "")(m) {
      assert StatusName(m.status) == "rejected" <==> m.status == Rejected;
    }
    FilterExt(missions, RejectedFn(), MatchesFn("rejected", ""));
  }

  lemma ApprovedCountMatches(missions: seq<MissionOrder>)
    ensures Count(missions, ApprovedFn()) ==
            |Filter(missions, MatchesFn("approved", ""))| + |Filter(missions, MatchesFn("paid", ""))|
  {
    forall m ensures ApprovedFn()(m) == (MatchesFn("approved", "")(m) || MatchesFn("paid", "")(m))
                     && !(MatchesFn("approved", "")(m) && MatchesFn("paid", "")(m)) {
      assert StatusName(m.status) == "approved" <==> m.status == Approved;
      assert StatusName(m.status) == "paid" <==> m.status == Paid;
    }
    CountSplit(missions, ApprovedFn(), MatchesFn("approved", ""), MatchesFn("paid", ""));
  }

  /** The total amount adds up the estimated amounts: it is the sum over the mission list. */
  lemma TotalAmountAppend(missions: seq<MissionOrder>, m: MissionOrder)
    ensures ComputeStats(missions + [m]).totalAmount == ComputeStats(missions).totalAmount + m.estimatedAmount
    ensures ComputeStats(missions + [m]).total == ComputeStats(missions).total + 1
  {
    SumAppend(missions, m, EstimatedAmount);
  }
}
