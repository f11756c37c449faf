/** The quality-control manifest reader: a delimited-text file whose first
    line is a header and whose other lines are `id,path,flag` rows; the
    image paths kept are those of rows flagged `1`. */
module Manifest {
  import opened PyStr

  /** The comma-separated fields of one manifest line, after surrounding
      whitespace (the line break included) is stripped. The split is a
      plain cut at every comma: quoting is not understood. */
  function Fields(line: string): seq<string> {
    Split(Strip(line), ',')
  }

  /** A line has one field more than its stripped text has commas. */
  lemma FieldCount(line: string)
    ensures |Fields(line)| == multiset(Strip(line))[','] + 1
  {
    SplitCount(Strip(line), ',');
  }

  /** A row is kept when it has exactly three fields and the third is `1`. */
  predicate Kept(row: seq<string>) {
    |row| == 3 && row[2] == "1"
  }

  predicate Qualifies(line: string) {
    Kept(Fields(line))
  }

  /** `p` is the second field of some qualifying line after the header. */
  ghost predicate Listed(lines: seq<string>, p: string) {
    exists i :: 1 <= i < |lines| && Qualifies(lines[i]) && Fields(lines[i])[1] == p
  }

  /** The fields of every line. */
  function Rows(lines: seq<string>): (rows: seq<seq<string>>)
    ensures |rows| == |lines|
  {
    seq(|lines|, i requires 0 <= i < |lines| => Fields(lines[i]))
  }

  /** What one row after the header contributes: its second field when it
      is kept, nothing otherwise. */
  function Entry(row: seq<string>): seq<string> {
    if Kept(row) then [row[1]] else []
  }

  /** The entries of `rows[1..k]`, in order. */
  function Collected(rows: seq<seq<string>>, k: nat): seq<string>
    requires k <= |rows|
  {
    if k <= 1 then [] else Collected(rows, k - 1) + Entry(rows[k - 1])
  }

  /** A path is collected from the first `k` rows exactly when one of those
      rows after the header is kept and names it. */
  lemma {:induction false} CollectedEntries(rows: seq<seq<string>>, k: nat, p: string)
    requires k <= |rows|
    ensures p in Collected(rows, k) <==> exists i :: 1 <= i < k && Kept(rows[i]) && rows[i][1] == p
  {
    if k > 1 {
      CollectedEntries(rows, k - 1, p);
      if p in Collected(rows, k) && p !in Collected(rows, k - 1) {
        assert Kept(rows[k - 1]) && rows[k - 1][1] == p;
      }
      if Kept(rows[k - 1]) && rows[k - 1][1] == p {
        assert p in Collected(rows, k);
      }
    }
  }

  /** The collected paths of a whole manifest are the listed ones. */
  lemma CollectedListed(lines: seq<string>, p: string)
    requires |lines| >= 1
    ensures p in Collected(Rows(lines), |lines|) <==> Listed(lines, p)
  {
    var rows := Rows(lines);
    CollectedEntries(rows, |lines|, p);
    if p in Collected(rows, |lines|) {
      var i :| 1 <= i < |lines| && Kept(rows[i]) && rows[i][1] == p;
      assert rows[i] == Fields(lines[i]);
    }
    if Listed(lines, p) {
      var i :| 1 <= i < |lines| && Qualifies(lines[i]) && Fields(lines[i])[1] == p;
      assert rows[i] == Fields(lines[i]);
    }
  }

  /** Reads the manifest lines into the list of image paths: every qualifying
      row after the header contributes its second field, and the list is
      then de-duplicated through a set. */
  method ReadManifest(lines: seq<string>) returns (paths: seq<string>)
    ensures forall p :: p in paths <==> Listed(lines, p)
    ensures forall a, b :: 0 <= a < b < |paths| ==> paths[a] != paths[b]
  {
    var collected := CollectRows(lines);
    paths := Dedup(collected);
    forall p
      ensures p in paths <==> Listed(lines, p)
    {
      if |lines| >= 1 {
        CollectedListed(lines, p);
      }
    }
  }

  /** The loop over the rows after the header, appending the second field of
      each qualifying row. */
  method CollectRows(lines: seq<string>) returns (collected: seq<string>)
    ensures |lines| >= 1 ==> collected == Collected(Rows(lines), |lines|)
    ensures |lines| == 0 ==> collected == []
  {
    ghost var rows := Rows(lines);
    collected := [];
    var k := 1;
    while k < |lines|
      invariant 1 <= k && (k <= |lines| || |lines| <= 1)
      invariant k <= |lines| ==> collected == Collected(rows, k)
      invariant |lines| <= 1 ==> collected == []
    {
      var tmp := Fields(lines[k]);
      if |tmp| == 3 && tmp[2] == "1" {
        collected := collected + [tmp[1]];
      }
      assert tmp == rows[k];
      assert collected == Collected(rows, k) + Entry(tmp);
      k := k + 1;
    }
  }

  /** `list(set(xs))`: each element once. Python's set fixes no order; this
      one keeps first occurrences. */
  method Dedup(xs: seq<string>) returns (ys: seq<string>)
    ensures forall p :: p in ys <==> p in xs
    ensures forall a, b :: 0 <= a < b < |ys| ==> ys[a] != ys[b]
  {
    var seen: set<string> := {};
    ys := [];
    var j := 0;
    while j < |xs|
      invariant 0 <= j <= |xs|
      invariant forall p :: p in seen <==> p in xs[..j]
      invariant forall p :: p in ys <==> p in seen
      invariant forall a, b :: 0 <= a < b < |ys| ==> ys[a] != ys[b]
    {
      if xs[j] !in seen {
        seen := seen + {xs[j]};
        ys := ys + [xs[j]];
      }
      assert xs[..j + 1] == xs[..j] + [xs[j]];
      j := j + 1;
    }
    assert xs[..j] == xs;
  }

  /** The header line is never read: two manifests that differ at most in
      their first line list the same paths. */
  lemma HeaderIgnored(lines1: seq<string>, lines2: seq<string>, p: string)
    requires |lines1| == |lines2| >= 1 && lines1[1..] == lines2[1..]
    ensures Listed(lines1, p) <==> Listed(lines2, p)
  {
    forall i | 1 <= i < |lines1|
      ensures lines1[i] == lines2[i]
    {
      assert lines1[i] == lines1[1..][i - 1];
    }
  }
}
