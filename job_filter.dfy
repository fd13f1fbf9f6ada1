/**
 * The job-search filter of the home page: three `Array.filter` stages applied in turn, each
 * only when its filter string is non-empty.
 */
module JobFilter {
  import opened Text
  import opened Records
  import opened Sequences

  /** Lower-cased title or lower-cased company includes the lower-cased term. */
  predicate MatchesSearch(job: Job, term: string) {
    Contains(Lower(job.title), Lower(term)) || Contains(Lower(job.company), Lower(term))
  }

  /** Lower-cased location includes the lower-cased filter. */
  predicate MatchesLocation(job: Job, location: string) {
    Contains(Lower(job.location), Lower(location))
  }

  /** The type equals the filter exactly, case included. */
  predicate MatchesType(job: Job, jobType: string) {
    job.jobType == jobType
  }

  function SearchStage(term: string): Job -> bool {
    job => MatchesSearch(job, term)
  }

  function LocationStage(location: string): Job -> bool {
    job => MatchesLocation(job, location)
  }

  function TypeStage(jobType: string): Job -> bool {
    job => MatchesType(job, jobType)
  }

  /** A job passes every filter whose string is non-empty; an empty string filters nothing. */
  predicate Selected(job: Job, searchTerm: string, locationFilter: string, typeFilter: string) {
    && (searchTerm != "" ==> MatchesSearch(job, searchTerm))
    && (locationFilter != "" ==> MatchesLocation(job, locationFilter))
    && (typeFilter != "" ==> MatchesType(job, typeFilter))
  }

  function SelectedBy(searchTerm: string, locationFilter: string, typeFilter: string): Job -> bool {
    job => Selected(job, searchTerm, locationFilter, typeFilter)
  }

  /** `filterJobs`: the search stage, then the location stage, then the type stage. */
  function FilterJobs(jobs: seq<Job>, searchTerm: string, locationFilter: string, typeFilter: string): (r: seq<Job>)
    ensures forall job :: job in r ==> job in jobs && Selected(job, searchTerm, locationFilter, typeFilter)
    ensures forall job :: job in jobs && Selected(job, searchTerm, locationFilter, typeFilter) ==> job in r
  {
    var afterSearch := if searchTerm != "" then Filter(jobs, SearchStage(searchTerm)) else jobs;
    var afterLocation :=
      if locationFilter != "" then Filter(afterSearch, LocationStage(locationFilter)) else afterSearch;
    if typeFilter != "" then Filter(afterLocation, TypeStage(typeFilter)) else afterLocation
  }

  /** The predicate of a stage, or one that accepts everything when its string is empty. */
  function StageOrAll(filter: string, stage: Job -> bool): Job -> bool {
    job => filter == "" || stage(job)
  }

  /** A stage that runs only for a non-empty string filters by StageOrAll. */
  lemma OptionalStage(s: seq<Job>, filter: string, stage: Job -> bool)
    ensures (if filter != "" then Filter(s, stage) else s) == Filter(s, StageOrAll(filter, stage))
  {
    if filter == "" {
      FilterKeepsAll(s, StageOrAll(filter, stage));
    } else {
      FilterSameVerdict(s, stage, StageOrAll(filter, stage));
    }
  }

  /** The three stages together keep exactly the selected jobs, in input order. */
  lemma FilterJobsIsOneFilter(jobs: seq<Job>, searchTerm: string, locationFilter: string, typeFilter: string)
    ensures FilterJobs(jobs, searchTerm, locationFilter, typeFilter)
      == Filter(jobs, SelectedBy(searchTerm, locationFilter, typeFilter))
  {
    var s := StageOrAll(searchTerm, SearchStage(searchTerm));
    var l := StageOrAll(locationFilter, LocationStage(locationFilter));
    var t := StageOrAll(typeFilter, TypeStage(typeFilter));
    var sl: Job -> bool := job => s(job) && l(job);
    var afterSearch := if searchTerm != "" then Filter(jobs, SearchStage(searchTerm)) else jobs;
    var afterLocation :=
      if locationFilter != "" then Filter(afterSearch, LocationStage(locationFilter)) else afterSearch;
    OptionalStage(jobs, searchTerm, SearchStage(searchTerm));
    OptionalStage(afterSearch, locationFilter, LocationStage(locationFilter));
    OptionalStage(afterLocation, typeFilter, TypeStage(typeFilter));
    FilterFuse(jobs, s, l, sl);
    FilterFuse(jobs, sl, t, SelectedBy(searchTerm, locationFilter, typeFilter));
  }

  /** With all three strings empty the list is shown as it is. */
  lemma NoFiltersKeepsAll(jobs: seq<Job>)
    ensures FilterJobs(jobs, "", "", "") == jobs
  {
  }

  /** The result is a subsequence of the input: jobs are only dropped, never reordered. */
  lemma FilterJobsIsSubsequence(jobs: seq<Job>, searchTerm: string, locationFilter: string, typeFilter: string)
    ensures IsSubsequence(FilterJobs(jobs, searchTerm, locationFilter, typeFilter), jobs)
  {
    FilterJobsIsOneFilter(jobs, searchTerm, locationFilter, typeFilter);
    FilterIsSubsequence(jobs, SelectedBy(searchTerm, locationFilter, typeFilter));
  }

  /** Filtering the result again with the same three strings returns it unchanged. */
  lemma FilterJobsIdempotent(jobs: seq<Job>, searchTerm: string, locationFilter: string, typeFilter: string)
    ensures var r := FilterJobs(jobs, searchTerm, locationFilter, typeFilter);
      FilterJobs(r, searchTerm, locationFilter, typeFilter) == r
  {
    var r := FilterJobs(jobs, searchTerm, locationFilter, typeFilter);
    FilterJobsIsOneFilter(jobs, searchTerm, locationFilter, typeFilter);
    FilterJobsIsOneFilter(r, searchTerm, locationFilter, typeFilter);
    FilterIdempotent(jobs, SelectedBy(searchTerm, locationFilter, typeFilter));
  }

  /** Case does not matter for the search term: a term and its lower-cased form select alike. */
  lemma SearchIgnoresCase(job: Job, term: string)
    ensures MatchesSearch(job, term) == MatchesSearch(job, Lower(term))
  {
    LowerIdempotent(term);
  }
}
