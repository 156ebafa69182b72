/** `scrape_category`: deciding, for each simfile of a category listing,
    whether the local chart file is up to date. The fetched listing, the
    clock and the local filesystem are parameters: the filesystem maps each
    existing path to its modification time. */
module Sync {
  import opened Text
  import opened Results
  import opened RelativeDate
  import opened CategoryPage
  import opened LocalCharts
  import DetailPage

  const BaseSimfilesDir: string := "simfiles/"
  const SimfilesDir: string := BaseSimfilesDir + "DDR WORLD/"
  const WorldUrl: string := DetailPage.BaseUrl + "viewsimfilecategory.php?categoryid=1709"

  /** The detail page of a simfile, as `scrape_simfile` builds its URL. */
  function SimfileUrl(simfileId: string): string {
    DetailPage.BaseUrl + LinkPrefix + simfileId
  }

  /** The URL `scrape_simfile` requests, read relative to the base URL, is
      a simfile link that yields the same id back. */
  lemma SimfileUrlRoundTrip(simfileId: string)
    requires |simfileId| > 0 && AllDigits(simfileId)
    ensures SimfileIdOf(SimfileUrl(simfileId)[|DetailPage.BaseUrl|..]) == Some(simfileId)
  {
    var url := SimfileUrl(simfileId);
    assert url[|DetailPage.BaseUrl|..] == LinkPrefix + simfileId + [];
    SimfileIdOfLink(simfileId, []);
  }

  /** The three outcomes `scrape_category` logs for a simfile. */
  datatype Freshness = UpToDate | Outdated | Missing

  /** The freshness decision: no local file, a local file at least as new
      as the remote update (ties included), or an older one. */
  function Decide(localMtime: Option<Instant>, remote: Instant): (f: Freshness)
    ensures f == Missing <==> localMtime.None?
    ensures f == UpToDate <==> localMtime.Some? && localMtime.value >= remote
    ensures f == Outdated <==> localMtime.Some? && localMtime.value < remote
  {
    match localMtime
    case None => Missing
    case Some(local) => if local >= remote then UpToDate else Outdated
  }

  /** Moving the remote update earlier never turns an up-to-date file into
      an outdated one, and a newer local file never does either. */
  lemma DecideMonotone(local1: Instant, local2: Instant, remote1: Instant, remote2: Instant)
    requires remote2 <= remote1 && local1 <= local2
    ensures Decide(Some(local1), remote1) == UpToDate ==> Decide(Some(local2), remote2) == UpToDate
    ensures Decide(Some(local2), remote2) == Outdated ==> Decide(Some(local1), remote1) == Outdated
  {
  }

  /** The modification time of the chart file `find_sm_file` picks, if
      any. */
  function LocalMtime(directory: string, name: string, fs: map<string, Instant>): (t: Option<Instant>)
    ensures t.Some? <==> SmPath(directory, name) in fs || SscPath(directory, name) in fs
    ensures SmPath(directory, name) in fs ==> t == Some(fs[SmPath(directory, name)])
    ensures SmPath(directory, name) !in fs && SscPath(directory, name) in fs ==> t == Some(fs[SscPath(directory, name)])
  {
    match FindSmFile(directory, name, fs.Keys)
    case None => None
    case Some(path) => Some(fs[path])
  }

  /** The decision for every entry, in listing order: missing when
      `find_sm_file` finds no chart, up to date when the chart it finds is
      at least as new as the entry's date, outdated otherwise. */
  function Decisions(entries: seq<Entry>, directory: string, fs: map<string, Instant>): (ds: seq<Freshness>)
    ensures |ds| == |entries|
    ensures forall i :: 0 <= i < |entries| ==>
      (ds[i] == Missing <==> FindSmFile(directory, entries[i].simfileName, fs.Keys).None?)
    ensures forall i :: 0 <= i < |entries| ==>
      (ds[i] == UpToDate <==>
        (FindSmFile(directory, entries[i].simfileName, fs.Keys).Some? &&
         fs[FindSmFile(directory, entries[i].simfileName, fs.Keys).value] >= entries[i].lastUpdated))
    ensures forall i :: 0 <= i < |entries| ==>
      (ds[i] == Outdated <==>
        (FindSmFile(directory, entries[i].simfileName, fs.Keys).Some? &&
         fs[FindSmFile(directory, entries[i].simfileName, fs.Keys).value] < entries[i].lastUpdated))
  {
    seq(|entries|, i requires 0 <= i < |entries| =>
      Decide(LocalMtime(directory, entries[i].simfileName, fs), entries[i].lastUpdated))
  }

  /** `scrape_category` on an already fetched listing: extracts the entries
      (an extraction error propagates) and decides, entry by entry, whether
      the local chart is up to date, skipping on to the next entry when it
      is. */
  method ScrapeCategory(anchors: seq<Anchor>, now: Instant, fs: map<string, Instant>) returns (r: Result<seq<Freshness>>)
    ensures r.Ok? <==> Extract(anchors, CellDates(now), None).Ok?
    ensures r.Ok? ==> r.value == Decisions(Extract(anchors, CellDates(now), None).value, SimfilesDir, fs)
    ensures r.Err? ==> r.error == Extract(anchors, CellDates(now), None).error
  {
    var info := GetLastUpdatedFromCategory(anchors, now);
    if info.Err? {
      return Err(info.error);
    }
    var entries := info.value;
    var decisions: seq<Freshness> := [];
    for k := 0 to |entries|
      invariant decisions == Decisions(entries[..k], SimfilesDir, fs)
    {
      var entry := entries[k];
      assert entries[..k + 1] == entries[..k] + [entry];
      var smFile := FindSmFile(SimfilesDir, entry.simfileName, fs.Keys);
      if smFile.Some? {
        var localMtime := fs[smFile.value];
        if localMtime >= entry.lastUpdated {
          decisions := decisions + [UpToDate];
          continue;
        } else {
          decisions := decisions + [Outdated];
        }
      } else {
        decisions := decisions + [Missing];
      }
    }
    assert entries[..|entries|] == entries;
    r := Ok(decisions);
  }
}
