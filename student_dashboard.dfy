/** The numbers on the student dashboard
    (frontend/src/pages/student/StudentDashboard.jsx): counts over the
    student's applications and the recommended-jobs prefix. */
module StudentDashboardPage {
  import opened ApplicationModel
  import Seqs

  datatype Stats = Stats(applied: nat, offer: nat, rejected: nat)

  /** Offers shown: an offer made or accepted. */
  predicate IsOffer(a: Application) {
    var s := StatusName(a.status);
    s == "accepted" || s == "offer_accepted"
  }

  predicate IsRejected(a: Application) {
    StatusName(a.status) == "rejected"
  }

  /** The three counters: every application, the offers and the rejections;
      no application is counted as both. */
  function ComputeStats(apps: seq<Application>): (r: Stats)
    ensures r.applied == |apps|
    ensures r.offer + r.rejected <= r.applied
    ensures r.offer == |Seqs.Filter(IsOffer, apps)| && r.rejected == |Seqs.Filter(IsRejected, apps)|
    ensures forall a :: multiset(Seqs.Filter(IsOffer, apps))[a] == if IsOffer(a) then multiset(apps)[a] else 0
    ensures forall a :: multiset(Seqs.Filter(IsRejected, apps))[a] == if IsRejected(a) then multiset(apps)[a] else 0
  {
    Seqs.DisjointCounts(IsOffer, IsRejected, apps);
    Seqs.FilterMultiset(IsOffer, apps);
    Seqs.FilterMultiset(IsRejected, apps);
    Stats(|apps|, Seqs.Count(IsOffer, apps), Seqs.Count(IsRejected, apps))
  }

  /** A further application raises `applied` by one, `offer` by one exactly
      when it is an offer and `rejected` by one exactly when it is rejected. */
  lemma StatsOfOneMore(apps: seq<Application>, a: Application)
    ensures ComputeStats(apps + [a]).applied == ComputeStats(apps).applied + 1
    ensures ComputeStats(apps + [a]).offer == ComputeStats(apps).offer + (if IsOffer(a) then 1 else 0)
    ensures ComputeStats(apps + [a]).rejected == ComputeStats(apps).rejected + (if IsRejected(a) then 1 else 0)
  {
    Seqs.CountAppend(IsOffer, apps, a);
    Seqs.CountAppend(IsRejected, apps, a);
  }

  /** The offer counter counts exactly the accepted and offer-accepted
      applications, never a pending, rejected or declined one. */
  lemma OfferMeansAccepted(a: Application)
    ensures IsOffer(a) <==> a.status == Accepted || a.status == OfferAccepted
  {
  }

  /** `slice(0, 3)` of the available jobs. */
  function Recommended<T>(jobs: seq<T>): (r: seq<T>)
    ensures |r| <= 3 && r <= jobs
    ensures |jobs| >= 3 ==> |r| == 3
    ensures |jobs| <= 3 ==> r == jobs
  {
    Seqs.Take(jobs, 3)
  }
}
