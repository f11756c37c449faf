/** Output file names: a prediction is written under the input's base name
    with its last extension replaced by `.tif`, and a large-image mosaic
    under the input's base name joined to the output directory. Paths use
    the POSIX separator `/` (`os.sep`). */
module Naming {
  import opened PyStr

  const Sep: char := '/'

  /** `path.split(os.sep)[-1]`: the last path component. */
  function Basename(path: string): (b: string)
    ensures Sep !in b
  {
    var parts := Split(path, Sep);
    parts[|parts| - 1]
  }

  /** `'.'.join(name.split('.')[:-1])`: the name without its last
      `.`-suffix; empty when the name has no `.`. */
  function Stem(name: string): string {
    var parts := Split(name, '.');
    Join(parts[..|parts| - 1], '.')
  }

  /** The file name a tile prediction is written to. */
  function PredictionFileName(path: string): string {
    Stem(Basename(path)) + ".tif"
  }

  /** The base name is everything after the last separator. */
  lemma BasenameIsTail(path: string)
    ensures Basename(path) == path[LastIndexOf(path, Sep) + 1..]
  {
    SplitLast(path, Sep);
  }

  /** The stem is the name up to its last `.`, or empty without a `.`. */
  lemma StemIsPrefix(name: string)
    ensures var dot := LastIndexOf(name, '.');
      Stem(name) == if dot < 0 then "" else name[..dot]
  {
    SplitDropLast(name, '.');
  }

  /** The prediction file name has no separator, ends in `.tif`, and is the
      base name cut at its last `.` followed by `.tif`; a base name without
      any `.` gives just `.tif`. */
  lemma PredictionFileNameShape(path: string)
    ensures var r := PredictionFileName(path);
      var b := Basename(path);
      var dot := LastIndexOf(b, '.');
      && Sep !in r
      && |r| >= 4 && r[|r| - 4..] == ".tif"
      && r == (if dot < 0 then "" else b[..dot]) + ".tif"
      && (dot < 0 ==> r == ".tif")
  {
    var b := Basename(path);
    StemIsPrefix(b);
    StemKeepsOut(b, Sep);
    var r := PredictionFileName(path);
    assert r[|r| - 4..] == ".tif";
  }

  /** A character missing from a name is missing from its stem. */
  lemma StemKeepsOut(name: string, c: char)
    requires c !in name
    ensures c !in Stem(name)
  {
    StemIsPrefix(name);
    var dot := LastIndexOf(name, '.');
    if dot >= 0 {
      assert forall k :: 0 <= k < dot ==> name[..dot][k] == name[k];
    }
  }

  /** `os.path.join(directory, name)` on POSIX: an absolute `name` replaces
      the directory; otherwise a `/` is inserted unless the directory is
      empty or already ends in one. */
  function PathJoin(directory: string, name: string): string {
    if |name| > 0 && name[0] == Sep then name
    else if |directory| == 0 || directory[|directory| - 1] == Sep then directory + name
    else directory + [Sep] + name
  }

  /** A name that does not start with the separator, joined to a non-empty
      directory that does not end in one, gets exactly one separator
      between them. */
  lemma PathJoinSeparator(directory: string, name: string)
    requires |directory| > 0 && directory[|directory| - 1] != Sep
    requires |name| == 0 || name[0] != Sep
    ensures PathJoin(directory, name) == directory + [Sep] + name
  {
  }

  /** The base name of a separator-free name joined to any directory, empty
      or ending in the separator or not, is the name again. */
  lemma PathJoinBasename(directory: string, name: string)
    requires Sep !in name
    ensures Basename(PathJoin(directory, name)) == name
  {
    if |directory| == 0 {
      BasenameIsTail(name);
      assert LastIndexOf(name, Sep) == -1;
    } else if directory[|directory| - 1] == Sep {
      BasenameAfterSep(directory[..|directory| - 1], name);
      assert directory + name == directory[..|directory| - 1] + [Sep] + name;
    } else {
      BasenameAfterSep(directory, name);
    }
  }

  /** Whatever precedes the last separator is dropped by the base name. */
  lemma BasenameAfterSep(prefix: string, name: string)
    requires Sep !in name
    ensures Basename(prefix + [Sep] + name) == name
  {
    var p := prefix + [Sep] + name;
    BasenameIsTail(p);
    assert p[|prefix|] == Sep;
    assert forall k :: |prefix| < k < |p| ==> p[k] == name[k - |prefix| - 1];
    assert LastIndexOf(p, Sep) == |prefix|;
  }
}
