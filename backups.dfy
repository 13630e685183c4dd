/**
 * Backup-on-write for the JSON files (app.py:646-655): before a file is
 * overwritten it is copied to BACKUP_DIR as <basename>.<YYYYmmdd_HHMMSS>.bak,
 * and of the names in BACKUP_DIR that start with <basename> only the 5 that
 * sort last are kept. The directory is modelled as its set of file names.
 */
module Backups {
  import opened Strings
  import opened Ordering

  /** How many backups of one file survive a backup. */
  const Keep: nat := 5

  /** The name a backup of `base` taken at `stamp` gets. */
  function BackupName(base: string, stamp: string): (n: string)
    ensures StartsWith(n, base)
  {
    assert (base + "." + stamp + ".bak")[..|base|] == base;
    base + "." + stamp + ".bak"
  }

  /** The names in dir that the retention step considers backups of base. */
  ghost function Family(dir: set<string>, base: string): set<string> {
    set x | x in dir && StartsWith(x, base)
  }

  /** The backups of base in dir that sort after x. */
  ghost function Newer(dir: set<string>, base: string, x: string): set<string> {
    set y | y in dir && StartsWith(y, base) && Less(x, y)
  }

  /** Whether x survives retention: other files always do, backups of base when fewer than Keep sort after them. */
  ghost predicate Kept(dir: set<string>, base: string, x: string) {
    !StartsWith(x, base) || |Newer(dir, base, x)| < Keep
  }

  /** The directory after retention, stated by rank rather than by sorting. */
  ghost function Retain(dir: set<string>, base: string): (r: set<string>)
    ensures r <= dir
  {
    set x | x in dir && Kept(dir, base, x)
  }

  /** The directory after backup_json when the file exists: copy, then retain. */
  ghost function Backed(dir: set<string>, base: string, stamp: string): set<string> {
    Retain(dir + {BackupName(base, stamp)}, base)
  }

  /** Python's backups[:-5]: how many of the sorted backups are deleted. */
  function Cut(n: nat): (c: nat)
    ensures c <= n
    ensures n - c == if n < Keep then n else Keep
  {
    if n > Keep then n - Keep else 0
  }

  /** s lists the backups of base in dir, in increasing order. */
  ghost predicate Enumerates(s: seq<string>, dir: set<string>, base: string) {
    StrictlySorted(s) && Distinct(s) && forall x :: x in s <==> x in Family(dir, base)
  }

  /** In an increasing enumeration the backups newer than s[j] are exactly those after it. */
  lemma NewerAt(dir: set<string>, base: string, s: seq<string>, j: nat)
    requires Enumerates(s, dir, base) && j < |s|
    ensures Newer(dir, base, s[j]) == Elems(s[j + 1..])
    ensures |Newer(dir, base, s[j])| == |s| - j - 1
  {
    forall y ensures y in Newer(dir, base, s[j]) <==> y in s[j + 1..] {
      if y in Newer(dir, base, s[j]) {
        assert y in Family(dir, base);
        assert y in s;
        var k :| 0 <= k < |s| && s[k] == y;
        if k < j {
          LessAsymmetric(s[k], s[j]);
        } else if k == j {
          LessIrreflexive(s[j]);
        }
        assert y == s[j + 1..][k - j - 1];
      }
      if y in s[j + 1..] {
        var k :| 0 <= k < |s[j + 1..]| && s[j + 1..][k] == y;
        assert y == s[j + 1 + k];
        assert y in Family(dir, base);
      }
    }
    DistinctCardinality(s[j + 1..]);
  }

  /** Retention is "delete the first n - 5 names of the sorted listing". */
  lemma RetainByDeletion(dir: set<string>, base: string, s: seq<string>)
    requires Enumerates(s, dir, base)
    ensures Retain(dir, base) == dir - Elems(s[..Cut(|s|)])
  {
    var c := Cut(|s|);
    forall x | x in dir ensures Kept(dir, base, x) <==> x !in s[..c] {
      if StartsWith(x, base) {
        assert x in Family(dir, base);
        assert x in s;
        var j :| 0 <= j < |s| && s[j] == x;
        NewerAt(dir, base, s, j);
        if x in s[..c] {
          var k :| 0 <= k < c && s[..c][k] == x;
          assert s[k] == s[j];
        }
      } else {
        assert x !in Family(dir, base);
        assert x !in s;
      }
    }
  }

  /** The backups that survive retention, in increasing order: the last Keep of the listing. */
  lemma RetainByEnumeration(dir: set<string>, base: string, s: seq<string>)
    requires Enumerates(s, dir, base)
    ensures Enumerates(s[Cut(|s|)..], Retain(dir, base), base)
  {
    var c := Cut(|s|);
    RetainByDeletion(dir, base, s);
    forall x ensures x in s[c..] <==> x in Family(Retain(dir, base), base) {
      if x in s[c..] {
        var k :| 0 <= k < |s| - c && s[c..][k] == x;
        assert x == s[c + k];
        assert x in Family(dir, base);
        assert x in Retain(dir, base);
      }
      if x in Family(Retain(dir, base), base) {
        assert x in Family(dir, base);
        assert x in s;
        var k :| 0 <= k < |s| && s[k] == x;
        assert k >= c;
        assert x == s[c..][k - c];
      }
    }
  }

  /** At most Keep backups of base remain, and all of them when there were fewer. */
  lemma RetainCount(dir: set<string>, base: string)
    ensures |Family(Retain(dir, base), base)| == if |Family(dir, base)| < Keep then |Family(dir, base)| else Keep
  {
    var s := SortedEnumeration(Family(dir, base));
    assert Enumerates(s, dir, base);
    RetainByEnumeration(dir, base, s);
    var t := s[Cut(|s|)..];
    DistinctCardinality(t);
    assert Elems(t) == Family(Retain(dir, base), base);
  }

  /** Every surviving backup of base sorts after every deleted one. */
  lemma RetainKeepsNewest(dir: set<string>, base: string, kept: string, gone: string)
    requires kept in Family(dir, base) && gone in Family(dir, base)
    requires kept in Retain(dir, base) && gone !in Retain(dir, base)
    ensures Less(gone, kept)
  {
    var s := SortedEnumeration(Family(dir, base));
    assert Enumerates(s, dir, base);
    RetainByDeletion(dir, base, s);
    var c := Cut(|s|);
    assert gone in s[..c];
    var i :| 0 <= i < c && s[..c][i] == gone;
    assert kept in s;
    var k :| 0 <= k < |s| && s[k] == kept;
    assert kept !in s[..c];
    assert k >= c;
    assert s[i] == gone;
  }

  /** Retention applied to its own result deletes nothing more. */
  lemma RetainIdempotent(dir: set<string>, base: string)
    ensures Retain(Retain(dir, base), base) == Retain(dir, base)
  {
    var s := SortedEnumeration(Family(dir, base));
    assert Enumerates(s, dir, base);
    RetainByEnumeration(dir, base, s);
    var t := s[Cut(|s|)..];
    assert Cut(|t|) == 0;
    RetainByDeletion(Retain(dir, base), base, t);
    assert Elems(t[..0]) == {};
  }

  /** Putting back a backup that retention deleted and retaining again deletes it again. */
  lemma RetainReadded(dir: set<string>, base: string, n: string)
    requires n in Family(dir, base) && n !in Retain(dir, base)
    ensures Retain(Retain(dir, base) + {n}, base) == Retain(dir, base)
  {
    var r1 := Retain(dir, base);
    var s := SortedEnumeration(Family(dir, base));
    assert Enumerates(s, dir, base);
    var c := Cut(|s|);
    RetainByEnumeration(dir, base, s);
    RetainByDeletion(dir, base, s);
    assert n in s;
    var j :| 0 <= j < |s| && s[j] == n;
    assert j < c by {
      assert n in Elems(s[..c]);
      var i :| 0 <= i < c && s[..c][i] == n;
      assert s[i] == s[j];
    }
    var d2 := r1 + {n};
    var t := [n] + s[c..];
    assert |s| - c == Keep;
    assert Enumerates(t, d2, base) by {
      forall a, b | 0 <= a < b < |t| ensures Less(t[a], t[b]) {
        if a == 0 {
          assert t[b] == s[c + b - 1];
        } else {
          assert t[a] == s[c + a - 1] && t[b] == s[c + b - 1];
        }
      }
      forall x ensures x in t <==> x in Family(d2, base) {
        if x in s[c..] {
          var k :| 0 <= k < |s| - c && s[c..][k] == x;
          assert x == t[k + 1];
        }
        if x in t && x != n {
          var k :| 0 <= k < |t| && t[k] == x;
          assert x == s[c..][k - 1];
        }
      }
    }
    assert Cut(|t|) == 1;
    RetainByDeletion(d2, base, t);
    assert Elems(t[..1]) == {n};
  }

  /** Backing up twice with the same stamp leaves the directory as backing up once. */
  lemma BackedTwice(dir: set<string>, base: string, stamp: string)
    ensures Backed(Backed(dir, base, stamp), base, stamp) == Backed(dir, base, stamp)
  {
    var n := BackupName(base, stamp);
    var d1 := dir + {n};
    var r1 := Retain(d1, base);
    if n in r1 {
      assert r1 + {n} == r1;
      RetainIdempotent(d1, base);
    } else {
      assert n in Family(d1, base);
      RetainReadded(d1, base, n);
    }
  }

  /** A backup whose name sorts after every existing backup of base survives. */
  lemma NewestBackupKept(dir: set<string>, base: string, stamp: string)
    requires forall y :: y in Family(dir, base) ==> Less(y, BackupName(base, stamp))
    ensures BackupName(base, stamp) in Backed(dir, base, stamp)
  {
    var n := BackupName(base, stamp);
    var d1 := dir + {n};
    forall y | y in Newer(d1, base, n) ensures false {
      if y == n {
        LessIrreflexive(n);
      } else {
        LessAsymmetric(y, n);
      }
    }
    assert Newer(d1, base, n) == {};
  }

  /** The names in dir that start with base, in some order, as the list comprehension over os.listdir gives them. */
  method ListFamily(dir: set<string>, base: string) returns (listed: seq<string>)
    ensures Distinct(listed)
    ensures forall x :: x in listed <==> x in Family(dir, base)
  {
    listed := [];
    var rest := dir;
    while rest != {}
      invariant rest <= dir
      invariant Distinct(listed)
      invariant forall x :: x in listed <==> x in dir - rest && StartsWith(x, base)
      decreases |rest|
    {
      var x :| x in rest;
      if StartsWith(x, base) {
        listed := listed + [x];
      }
      rest := rest - {x};
    }
  }

  /** for old in backups[:-5]: delete it. */
  method DeleteOldest(dir: set<string>, backups: seq<string>) returns (after: set<string>)
    ensures after == dir - Elems(backups[..Cut(|backups|)])
  {
    after := dir;
    var i := 0;
    while i < Cut(|backups|)
      invariant i <= Cut(|backups|)
      invariant after == dir - Elems(backups[..i])
    {
      assert backups[..i + 1] == backups[..i] + [backups[i]];
      after := after - {backups[i]};
      i := i + 1;
    }
  }

  /**
   * The retention step of backup_json: list the names that start with base,
   * sort them, and delete all but the last Keep.
   */
  method Prune(dir: set<string>, base: string) returns (after: set<string>)
    ensures after == Retain(dir, base)
  {
    var listed := ListFamily(dir, base);
    var backups := Sort(listed);
    SortKeepsDistinct(listed);
    SortedDistinct(backups);
    assert Enumerates(backups, dir, base) by {
      forall x ensures x in backups <==> x in listed {
        assert x in backups <==> x in multiset(backups);
        assert x in listed <==> x in multiset(listed);
      }
    }
    after := DeleteOldest(dir, backups);
    RetainByDeletion(dir, base, backups);
  }
}
