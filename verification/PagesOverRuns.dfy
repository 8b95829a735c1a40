/** A client walks review pages while the rating services run: the tables it reads are those of the run. */
module PagesOverRuns {
  import opened Wrappers
  import opened Reviews
  import opened ReviewPages
  import Reputation

  /** Page i was fetched from the reviews of state ns[i] of the run, with the cursor of the page before. */
  ghost predicate FetchedDuring(
    ws: seq<Reputation.State>, ns: seq<nat>, pages: seq<Page>, reviewee: UserId, role: Option<Role>, limit: nat)
  {
    && |ns| == |pages| > 0
    && (forall i | 0 <= i < |ns| :: ns[i] < |ws| && Fetched(ws[ns[i]].reviews, pages, i, reviewee, role, limit, TICKS))
    && (forall i, j | 0 <= i <= j < |ns| :: ns[i] <= ns[j])
  }

  /**
   Whatever submissions, likes, answers and reveals happen between the fetches of a finished walk, with
   stamps in microseconds: a review that was revealed at its start is listed exactly when no page passes
   it by, and never twice.
   */
  lemma WalkDuringRunIff(
    ws: seq<Reputation.State>, es: seq<Reputation.Step>, ns: seq<nat>, pages: seq<Page>,
    reviewee: UserId, role: Option<Role>, limit: nat, k: Key)
    requires Reputation.IsRun(ws, es) && FetchedDuring(ws, ns, pages, reviewee, role, limit) && limit > 0
    requires pages[|pages| - 1].next.None? && k in Visible(ws[ns[0]].reviews, reviewee, role)
    ensures Listed(pages, |pages| - 1, k) <==> forall i | 0 <= i < |pages| :: !LostAt(pages, i, limit, k)
    ensures forall i, j | 0 <= i < j < |pages| :: !(k in pages[i].keys && k in pages[j].keys)
  {
    var ts := seq(|ns|, i requires 0 <= i < |ns| && ns[i] < |ws| => ws[ns[i]].reviews);
    forall i, j | 0 <= i < j < |ts| && j == i + 1 ensures Grows(ts[i], ts[j]) {
      Reputation.RunGrows(ws, es, ns[i], ns[j]);
    }
    assert IsWalk(ts, pages, reviewee, role, limit, TICKS);
    OriginalsSeenOnceIff(ts, pages, reviewee, role, limit, TICKS, k);
  }
}
