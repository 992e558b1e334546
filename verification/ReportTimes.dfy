/** The times at which a debug module has reported, and what its last-report time was in between. */
module ReportTimes {

  /** What __ktime was once j reports had stored their time. */
  function TimeAfter(ktime: int, times: seq<int>, j: nat): int
    requires j <= |times|
  {
    if j == 0 then ktime else times[j - 1]
  }
}
