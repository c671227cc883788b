/** Path names as recovery composes and compares them.

    A path is its parent's components and a final name, so two spellings of one
    path are equal and a sidecar suffix is pushed onto the final name. */
module Paths {
  datatype Path = Path(dir: seq<string>, name: string)

  const SIDECARS: seq<string> := ["-wal", "-shm", "-journal"]

  function Sidecar(path: Path, suffix: string): Path {
    Path(path.dir, path.name + suffix)
  }

  function Child(directory: Path, name: string): Path {
    Path(directory.dir + [directory.name], name)
  }

  /** A database file and the three names SQLite may create beside it. */
  function Family(path: Path): (names: seq<Path>)
    ensures |names| == 4
  {
    [path, Sidecar(path, SIDECARS[0]), Sidecar(path, SIDECARS[1]), Sidecar(path, SIDECARS[2])]
  }

  /** `validate_recovery_paths` accepts. */
  predicate ValidRecoveryPaths(source: Path, archive: Path) {
    && source.dir == archive.dir
    && source != archive
    && forall suffix | suffix in SIDECARS ::
         archive != Sidecar(source, suffix) && source != Sidecar(archive, suffix)
  }

  ghost predicate Distinct<T(!new)>(s: seq<T>) {
    forall i, j :: 0 <= i < j < |s| ==> s[i] != s[j]
  }

  lemma SidecarInjective(x: string, y: string, s: string)
    ensures x + s == y + s ==> x == y
  {
    if x + s == y + s {
      assert x == (x + s)[..|x|];
      assert y == (y + s)[..|y|];
    }
  }

  lemma PrefixInjective(p: string, x: string, y: string)
    ensures p + x == p + y ==> x == y
  {
    if p + x == p + y {
      assert x == (p + x)[|p|..];
      assert y == (p + y)[|p|..];
    }
  }

  /** No two different sidecar suffixes can end one name: they differ within
      their last four characters. */
  lemma SuffixesDiffer(x: string, y: string, i: nat, j: nat)
    requires i < j < 3
    ensures x + SIDECARS[i] != y + SIDECARS[j]
  {
    var a, b := x + SIDECARS[i], y + SIDECARS[j];
    assert SIDECARS[i][|SIDECARS[i]| - 3] != SIDECARS[j][|SIDECARS[j]| - 3];
    assert a[|a| - 3] == SIDECARS[i][|SIDECARS[i]| - 3];
    assert b[|b| - 3] == SIDECARS[j][|SIDECARS[j]| - 3];
  }

  /** Sidecars of one path, or of two different paths, never share a name. */
  lemma SidecarsDiffer(p: Path, q: Path, i: nat, j: nat)
    requires i < 3 && j < 3 && (p != q || i != j) && p.dir == q.dir
    ensures Sidecar(p, SIDECARS[i]) != Sidecar(q, SIDECARS[j])
  {
    if i == j {
      SidecarInjective(p.name, q.name, SIDECARS[i]);
    } else if i < j {
      SuffixesDiffer(p.name, q.name, i, j);
    } else {
      SuffixesDiffer(q.name, p.name, j, i);
    }
  }

  function Member(path: Path, slot: nat): Path
    requires slot < 4
  {
    if slot == 0 then path else Sidecar(path, SIDECARS[slot - 1])
  }

  lemma MembersDiffer(p: Path, q: Path, m: nat, n: nat)
    requires p.dir == q.dir && m < 4 && n < 4 && (p != q || m != n)
    requires p == q || ValidRecoveryPaths(p, q)
    ensures Member(p, m) != Member(q, n)
  {
    if 0 < m && 0 < n {
      SidecarsDiffer(p, q, m - 1, n - 1);
    } else if 0 < m {
      assert SIDECARS[m - 1] in SIDECARS;
      assert p == q ==> |Member(p, m).name| > |q.name|;
    } else if 0 < n {
      assert SIDECARS[n - 1] in SIDECARS;
      assert p == q ==> |Member(q, n).name| > |p.name|;
    }
  }

  /** The guard accepts two paths exactly when they are of one directory and the eight
      names recovery may touch are pairwise different. */
  lemma AcceptedIffNamesDistinct(source: Path, archive: Path)
    ensures ValidRecoveryPaths(source, archive) <==> source.dir == archive.dir && Distinct(Family(source) + Family(archive))
  {
    if source.dir == archive.dir { AcceptedInOneDirectory(source, archive); }
  }

  lemma AcceptedInOneDirectory(source: Path, archive: Path)
    requires source.dir == archive.dir
    ensures ValidRecoveryPaths(source, archive) <==> Distinct(Family(source) + Family(archive))
  {
    var all := Family(source) + Family(archive);
    forall i | 0 <= i < 8 ensures all[i] == Member(if i < 4 then source else archive, i % 4) {}
    if ValidRecoveryPaths(source, archive) {
      forall i, j | 0 <= i < j < 8 ensures all[i] != all[j] {
        MembersDiffer(if i < 4 then source else archive, if j < 4 then source else archive, i % 4, j % 4);
      }
    } else if source == archive {
      assert all[0] == all[4];
    } else {
      var suffix :| suffix in SIDECARS && (archive == Sidecar(source, suffix) || source == Sidecar(archive, suffix));
      var n :| 0 <= n < 3 && SIDECARS[n] == suffix;
      assert if archive == Sidecar(source, suffix) then all[1 + n] == all[4] else all[0] == all[5 + n];
    }
  }

  // The private staging directory

  const STAGING_PREFIX := ".dactyl-recovery-"
  const NONCE_MAX: nat := 0xFFFF_FFFF_FFFF_FFFF_FFFF_FFFF_FFFF_FFFF

  function Digit(n: nat): (c: char)
    requires n < 10
    ensures '0' <= c <= '9'
  {
    "0123456789"[n]
  }

  function Decimal(n: nat): (s: string)
    ensures |s| > 0 && '0' <= s[|s| - 1] <= '9'
  {
    if n < 10 then [Digit(n)] else Decimal(n / 10) + [Digit(n % 10)]
  }

  /** The number a string of digits stands for. */
  ghost function NumberOf(s: string): int {
    if s == "" then 0 else 10 * NumberOf(s[..|s| - 1]) + (s[|s| - 1] as int - '0' as int)
  }

  lemma {:induction false} DecimalReadsBack(n: nat)
    ensures NumberOf(Decimal(n)) == n
    ensures forall i | 0 <= i < |Decimal(n)| :: '0' <= Decimal(n)[i] <= '9'
  {
    var s := Decimal(n);
    if n < 10 {
      assert s[..|s| - 1] == "" && Digit(n) as int == '0' as int + n;
    } else {
      DecimalReadsBack(n / 10);
      assert s[..|s| - 1] == Decimal(n / 10) && Digit(n % 10) as int == '0' as int + n % 10;
    }
  }

  /** Two numbers written in decimal differ. */
  lemma DecimalsDiffer(m: nat, n: nat)
    requires m != n
    ensures Decimal(m) != Decimal(n)
  {
    DecimalReadsBack(m);
    DecimalReadsBack(n);
  }

  /** Two staging names of one process are the same only if their nonces are. */
  lemma StagingNamesDiffer(pid: nat, m: nat, n: nat)
    requires m != n
    ensures StagingName(pid, m) != StagingName(pid, n)
  {
    DecimalsDiffer(m, n);
    PrefixInjective(STAGING_PREFIX + Decimal(pid) + "-", Decimal(m), Decimal(n));
  }

  /** The nonce saturates at the top of its 128-bit range. */
  function Nonce(now: nat, attempt: nat): nat {
    if now + attempt <= NONCE_MAX then now + attempt else NONCE_MAX
  }

  function StagingName(pid: nat, nonce: nat): string {
    STAGING_PREFIX + Decimal(pid) + "-" + Decimal(nonce)
  }

  /** A staging name ends in a digit, so it is no database's sidecar. */
  lemma StagingIsNoSidecar(pid: nat, nonce: nat, name: string, s: nat)
    requires s < 3
    ensures StagingName(pid, nonce) != name + SIDECARS[s]
  {
    EndsDiffer(STAGING_PREFIX + Decimal(pid) + "-", Decimal(nonce), name, SIDECARS[s]);
  }

  lemma EndsDiffer(x: string, y: string, u: string, v: string)
    requires y != "" && v != "" && y[|y| - 1] != v[|v| - 1]
    ensures x + y != u + v
  {
    assert (x + y)[|x + y| - 1] == y[|y| - 1];
    assert (u + v)[|u + v| - 1] == v[|v| - 1];
  }
}
