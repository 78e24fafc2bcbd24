/** The job list of frontend/src/pages/student/StudentJobs.jsx: the
    case-insensitive company search and the description preview. */
module StudentJobsPage {
  import opened JsValues
  import opened JobModel
  import Seqs

  /** `job.company.toLowerCase().includes(term)` for an already lower-cased
      term. */
  predicate MatchesLowered(job: Job, loweredTerm: string) {
    Includes(ToLower(job.company), loweredTerm)
  }

  function FilterLowered(jobs: seq<Job>, loweredTerm: string): (r: seq<Job>)
    ensures forall j | j in r :: j in jobs && MatchesLowered(j, loweredTerm)
    ensures forall k | 0 <= k < |jobs| :: MatchesLowered(jobs[k], loweredTerm) ==> jobs[k] in r
    ensures forall j :: multiset(r)[j] == if MatchesLowered(j, loweredTerm) then multiset(jobs)[j] else 0
    ensures Seqs.IsSubsequence(r, jobs)
  {
    var matches := (j: Job) => MatchesLowered(j, loweredTerm);
    Seqs.FilterMultiset(matches, jobs);
    Seqs.Filter(matches, jobs)
  }

  /** `filteredJobs`: a job is kept exactly when its lower-cased company
      contains the lower-cased search term; order is kept. */
  function FilterByCompany(jobs: seq<Job>, searchTerm: string): (r: seq<Job>)
    ensures forall j | j in r :: j in jobs && Includes(ToLower(j.company), ToLower(searchTerm))
    ensures forall k | 0 <= k < |jobs| :: Includes(ToLower(jobs[k].company), ToLower(searchTerm)) ==> jobs[k] in r
    ensures forall j :: multiset(r)[j] == if Includes(ToLower(j.company), ToLower(searchTerm)) then multiset(jobs)[j] else 0
    ensures Seqs.IsSubsequence(r, jobs)
  {
    FilterLowered(jobs, ToLower(searchTerm))
  }

  /** An empty search keeps every job. */
  lemma EmptySearchKeepsAll(jobs: seq<Job>)
    ensures FilterByCompany(jobs, "") == jobs
  {
    assert ToLower("") == "";
    forall k | 0 <= k < |jobs| ensures MatchesLowered(jobs[k], "") {
      IncludesEmpty(ToLower(jobs[k].company));
    }
    Seqs.FilterAll((j: Job) => MatchesLowered(j, ""), jobs);
  }

  /** The search ignores the case of the term. */
  lemma SearchIgnoresCase(jobs: seq<Job>, searchTerm: string)
    ensures FilterByCompany(jobs, ToUpper(searchTerm)) == FilterByCompany(jobs, searchTerm)
  {
    forall i | 0 <= i < |searchTerm| ensures LowerChar(UpperChar(searchTerm[i])) == LowerChar(searchTerm[i]) { }
    assert ToLower(ToUpper(searchTerm)) == ToLower(searchTerm);
  }

  /** `description.substring(0, 100)`. */
  function Preview(description: string): (r: string)
    ensures |r| <= 100 && r <= description
    ensures |description| <= 100 ==> r == description
    ensures |description| >= 100 ==> |r| == 100
  {
    Prefix(description, 100)
  }
}
