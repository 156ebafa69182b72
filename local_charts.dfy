/** `find_sm_file`: locating the local chart file of a simfile. The
    filesystem is given as the set of paths that exist. */
module LocalCharts {
  import opened Results

  /** `directory + name + "/" + name`: the chart file's path without its
      extension, inside the simfile's own folder. */
  function ChartBase(directory: string, name: string): string {
    directory + name + "/" + name
  }

  function SmPath(directory: string, name: string): string {
    ChartBase(directory, name) + ".sm"
  }

  function SscPath(directory: string, name: string): string {
    ChartBase(directory, name) + ".ssc"
  }

  /** The two candidates are different paths, so which one is preferred
      matters when both exist. */
  lemma CandidatesDiffer(directory: string, name: string)
    ensures SmPath(directory, name) != SscPath(directory, name)
  {
    var base := ChartBase(directory, name);
    assert SmPath(directory, name)[|base| + 2] == 'm';
    assert SscPath(directory, name)[|base| + 2] == 's';
  }

  /** `find_sm_file`: the `.sm` file when it exists, otherwise the `.ssc`
      file when that exists, otherwise nothing. */
  function FindSmFile(directory: string, name: string, existing: set<string>): (r: Option<string>)
    ensures r.Some? ==> r.value in existing
    ensures r.Some? ==> r.value == SmPath(directory, name) || r.value == SscPath(directory, name)
    ensures r.None? <==> SmPath(directory, name) !in existing && SscPath(directory, name) !in existing
    ensures SmPath(directory, name) in existing ==> r == Some(SmPath(directory, name))
  {
    if SmPath(directory, name) in existing then Some(SmPath(directory, name))
    else if SscPath(directory, name) in existing then Some(SscPath(directory, name))
    else None
  }

  /** Only the two candidate paths are consulted: filesystems that agree on
      them give the same answer. */
  lemma OnlyCandidatesMatter(directory: string, name: string, fs1: set<string>, fs2: set<string>)
    requires SmPath(directory, name) in fs1 <==> SmPath(directory, name) in fs2
    requires SscPath(directory, name) in fs1 <==> SscPath(directory, name) in fs2
    ensures FindSmFile(directory, name, fs1) == FindSmFile(directory, name, fs2)
  {
  }

  /** Creating a file never makes a found chart disappear, and it can only
      replace the answer by the `.sm` file. */
  lemma AddingFileKeepsChart(directory: string, name: string, existing: set<string>, path: string)
    requires FindSmFile(directory, name, existing).Some?
    ensures FindSmFile(directory, name, existing + {path}).Some?
    ensures FindSmFile(directory, name, existing + {path}) == FindSmFile(directory, name, existing)
         || FindSmFile(directory, name, existing + {path}) == Some(SmPath(directory, name))
  {
  }

  /** The `.ssc` file is returned exactly when it exists and the `.sm` file
      does not. */
  lemma SscOnlyWithoutSm(directory: string, name: string, existing: set<string>)
    ensures FindSmFile(directory, name, existing) == Some(SscPath(directory, name))
        <==> SscPath(directory, name) in existing && SmPath(directory, name) !in existing
  {
    CandidatesDiffer(directory, name);
  }
}
