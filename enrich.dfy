/**
 * Routing of policy ids to the metadata files that describe them. A fixed
 * table maps id prefixes to file names. An id goes to the file of the
 * first prefix it starts with. Loading metadata first groups the requested
 * ids by file.
 */
module Enrich {
  import opened Wrappers

  /** `PREFIX_TO_FILE`, in its declaration order. */
  const Table: seq<(string, string)> := [
    ("SQ12", "licenses.json"),
    ("SQ14", "windows.json"),
    ("SQ18", "linux.json"),
    ("SQ20", "signatures.json"),
    ("SQ25", "integrity.json"),
    ("SQ30", "threats.json"),
    ("SQ31", "vulnerabilities.json"),
    ("SQ34", "secrets.json"),
    ("SQ40", "containers.json"),
    ("TH", "hunting.json")
  ]

  /** The file of the first entry of t whose prefix starts id. */
  function FirstPrefix(t: seq<(string, string)>, id: string): Option<string> {
    if t == [] then None
    else if t[0].0 <= id then Some(t[0].1)
    else FirstPrefix(t[1..], id)
  }

  /** `_get_file_for_policy(policy_id)`. */
  function FileForPolicy(id: string): Option<string> {
    FirstPrefix(Table, id)
  }

  /** No prefix of t starts another of its prefixes. */
  predicate PrefixFree(t: seq<(string, string)>) {
    forall i, j :: 0 <= i < |t| && 0 <= j < |t| && i != j ==> !(t[i].0 <= t[j].0)
  }

  /** First match: the result is the file of the first entry whose prefix starts id, and None iff there is none. */
  lemma {:induction false} FirstPrefixSpec(t: seq<(string, string)>, id: string)
    ensures FirstPrefix(t, id).None? <==> forall i :: 0 <= i < |t| ==> !(t[i].0 <= id)
    ensures FirstPrefix(t, id).Some? ==>
      exists i :: 0 <= i < |t| && t[i].0 <= id && FirstPrefix(t, id).value == t[i].1 &&
        forall k :: 0 <= k < i ==> !(t[k].0 <= id)
  {
    if t != [] && !(t[0].0 <= id) {
      FirstPrefixSpec(t[1..], id);
      assert forall i :: 1 <= i < |t| ==> t[i] == t[1..][i - 1];
      if FirstPrefix(t, id).Some? {
        var i :| 0 <= i < |t[1..]| && t[1..][i].0 <= id && FirstPrefix(t, id).value == t[1..][i].1 &&
          forall k :: 0 <= k < i ==> !(t[1..][k].0 <= id);
        assert t[i + 1] == t[1..][i];
        forall k | 0 <= k < i + 1
          ensures !(t[k].0 <= id)
        {
          if k > 0 {
            assert t[k] == t[1..][k - 1];
          }
        }
      }
    }
  }

  /** Two prefixes of the same string: the shorter is a prefix of the longer. */
  lemma PrefixesOfOneString(a: string, b: string, s: string)
    requires a <= s && b <= s && |a| <= |b|
    ensures a <= b
  {
    assert a == s[..|a|] && b == s[..|b|];
    assert b[..|a|] == a;
  }

  /** In a prefix-free table at most one entry starts a given id. */
  lemma UniqueMatch(t: seq<(string, string)>, id: string, i: int, j: int)
    requires PrefixFree(t)
    requires 0 <= i < |t| && 0 <= j < |t| && t[i].0 <= id && t[j].0 <= id
    ensures i == j
  {
    if |t[i].0| <= |t[j].0| {
      PrefixesOfOneString(t[i].0, t[j].0, id);
    } else {
      PrefixesOfOneString(t[j].0, t[i].0, id);
    }
  }

  /** The shape of the table's prefixes: nine of the form `SQdd`, then `TH`. */
  lemma PrefixShape(i: int)
    requires 0 <= i < |Table|
    ensures i < 9 ==> |Table[i].0| == 4 && Table[i].0[0] == 'S'
    ensures i == 9 ==> Table[i].0 == "TH"
  {
    assert i == 0 || i == 1 || i == 2 || i == 3 || i == 4 || i == 5 || i == 6 || i == 7 || i == 8 || i == 9;
  }

  /** The two digits of an `SQdd` prefix, read as one number. */
  function Code(s: string): int
    requires |s| == 4
  {
    (s[2] as int) * 256 + (s[3] as int)
  }

  lemma CodesIncrease(i: int)
    requires 0 <= i < 8
    ensures Code(Table[i].0) < Code(Table[i + 1].0)
  {
    assert i == 0 || i == 1 || i == 2 || i == 3 || i == 4 || i == 5 || i == 6 || i == 7;
  }

  lemma {:induction false} CodesStrict(i: int, j: int)
    requires 0 <= i < j < 9
    ensures |Table[i].0| == 4 && |Table[j].0| == 4 && Code(Table[i].0) < Code(Table[j].0)
    decreases j - i
  {
    PrefixShape(i);
    PrefixShape(j);
    CodesIncrease(j - 1);
    if i < j - 1 {
      CodesStrict(i, j - 1);
    }
  }

  lemma SameLengthPrefix(a: string, b: string)
    ensures a <= b && |a| == |b| ==> a == b
  {
  }

  /** The table is prefix-free. */
  lemma TablePrefixFree()
    ensures PrefixFree(Table)
  {
    forall i, j | 0 <= i < |Table| && 0 <= j < |Table| && i != j
      ensures !(Table[i].0 <= Table[j].0)
    {
      PrefixShape(i);
      PrefixShape(j);
      SameLengthPrefix(Table[i].0, Table[j].0);
      if i < 9 && j < 9 {
        if i < j {
          CodesStrict(i, j);
        } else {
          CodesStrict(j, i);
        }
      } else if i == 9 {
        assert Table[i].0[0] == 'T' && Table[j].0[0] == 'S';
      } else {
        assert Table[i].0[0] == 'S' && Table[j].0 == "TH";
      }
    }
  }

  /**
   * The lookup. It returns Some iff some table prefix starts the id. The file
   * is then the one paired with every prefix that does. Since at most one
   * does, the table's order does not matter, and the file is always one of
   * the table's values.
   */
  lemma FileForPolicySpec(id: string)
    ensures FileForPolicy(id).None? <==> forall i :: 0 <= i < |Table| ==> !(Table[i].0 <= id)
    ensures forall i :: 0 <= i < |Table| && Table[i].0 <= id ==> FileForPolicy(id) == Some(Table[i].1)
    ensures FileForPolicy(id).Some? ==> exists i :: 0 <= i < |Table| && FileForPolicy(id).value == Table[i].1
  {
    FirstPrefixSpec(Table, id);
    TablePrefixFree();
    if FileForPolicy(id).Some? {
      var i :| 0 <= i < |Table| && Table[i].0 <= id && FileForPolicy(id).value == Table[i].1 &&
        forall k :: 0 <= k < i ==> !(Table[k].0 <= id);
      forall j | 0 <= j < |Table| && Table[j].0 <= id
        ensures FileForPolicy(id) == Some(Table[j].1)
      {
        UniqueMatch(Table, id, i, j);
      }
    }
  }

  /** Reordering the table does not change any lookup. */
  lemma OrderIrrelevant(t: seq<(string, string)>, id: string)
    requires multiset(t) == multiset(Table)
    ensures FirstPrefix(t, id) == FileForPolicy(id)
  {
    TablePrefixFree();
    SameLookup(t, Table, id);
  }

  /** Two orders of one prefix-free table give the same lookups. */
  lemma SameLookup(t: seq<(string, string)>, u: seq<(string, string)>, id: string)
    requires multiset(t) == multiset(u) && PrefixFree(u)
    ensures FirstPrefix(t, id) == FirstPrefix(u, id)
  {
    FirstPrefixSpec(t, id);
    FirstPrefixSpec(u, id);
    if FirstPrefix(t, id).Some? {
      var j :| 0 <= j < |t| && t[j].0 <= id && FirstPrefix(t, id).value == t[j].1 &&
        forall k :: 0 <= k < j ==> !(t[k].0 <= id);
      assert t[j] in multiset(u);
      var i :| 0 <= i < |u| && u[i] == t[j];
      var i2 :| 0 <= i2 < |u| && u[i2].0 <= id && FirstPrefix(u, id).value == u[i2].1 &&
        forall k :: 0 <= k < i2 ==> !(u[k].0 <= id);
      UniqueMatch(u, id, i, i2);
    } else {
      forall i | 0 <= i < |u|
        ensures !(u[i].0 <= id)
      {
        assert u[i] in multiset(t);
        var j :| 0 <= j < |t| && t[j] == u[i];
      }
    }
  }

  /** A known id: `SQ31102` routes to the vulnerabilities file. */
  lemma VulnerabilityExample()
    ensures FileForPolicy("SQ31102") == Some("vulnerabilities.json")
  {
    FileForPolicySpec("SQ31102");
    assert Table[6].0 <= "SQ31102";
  }

  /** A known id: `TH001` routes to the hunting file. */
  lemma HuntingExample()
    ensures FileForPolicy("TH001") == Some("hunting.json")
  {
    FileForPolicySpec("TH001");
    assert Table[9].0 <= "TH001";
  }

  /** An unknown id: `XX99999` routes nowhere. */
  lemma UnknownExample()
    ensures FileForPolicy("XX99999") == None
  {
    FirstPrefixSpec(Table, "XX99999");
    forall i | 0 <= i < |Table|
      ensures !(Table[i].0 <= "XX99999")
    {
      PrefixShape(i);
      assert "XX99999"[0] == 'X';
    }
  }

  // ---------------------------------------------------------------------
  // Grouping ids by file

  /** The loop of `_get_file_for_policy`: scans the table in order and returns at the first prefix of id. */
  method GetFileForPolicy(policyId: string) returns (filename: Option<string>)
    ensures filename == FileForPolicy(policyId)
  {
    var i := 0;
    while i < |Table|
      invariant 0 <= i <= |Table|
      invariant FirstPrefix(Table[i..], policyId) == FileForPolicy(policyId)
    {
      assert Table[i..][1..] == Table[i + 1..];
      if Table[i].0 <= policyId {
        return Some(Table[i].1);
      }
      i := i + 1;
    }
    return None;
  }

  /** The ids of ids that route to file, in input order. */
  function Bucket(ids: seq<string>, file: string): seq<string> {
    if ids == [] then []
    else Bucket(ids[..|ids| - 1], file) + (if FileForPolicy(ids[|ids| - 1]) == Some(file) then [ids[|ids| - 1]] else [])
  }

  /** `files_to_load` after its loop: `setdefault(filename, []).append(pid)` for each routed id. */
  function Grouped(ids: seq<string>): map<string, seq<string>> {
    if ids == [] then map[]
    else
      var g := Grouped(ids[..|ids| - 1]);
      var pid := ids[|ids| - 1];
      match FileForPolicy(pid)
      case None => g
      case Some(file) => g[file := (if file in g then g[file] else []) + [pid]]
  }

  /**
   * Grouping. A file has a bucket iff some id routes to it. Its bucket is
   * exactly the ids routed to it, in input order.
   */
  lemma {:induction false} GroupedSpec(ids: seq<string>)
    ensures forall f :: f in Grouped(ids) <==> exists k :: 0 <= k < |ids| && FileForPolicy(ids[k]) == Some(f)
    ensures forall f :: f in Grouped(ids) ==> Grouped(ids)[f] == Bucket(ids, f)
  {
    if ids != [] {
      var pre := ids[..|ids| - 1];
      GroupedSpec(pre);
      assert forall k :: 0 <= k < |pre| ==> pre[k] == ids[k];
      forall f | f !in Grouped(pre)
        ensures Bucket(pre, f) == []
      {
        BucketMembers(pre, f);
      }
    }
  }

  /** Every id in a bucket is an input id routed to that file. */
  lemma {:induction false} BucketMembers(ids: seq<string>, file: string)
    ensures forall x :: x in Bucket(ids, file) ==> x in ids && FileForPolicy(x) == Some(file)
    ensures (forall k :: 0 <= k < |ids| ==> FileForPolicy(ids[k]) != Some(file)) ==> Bucket(ids, file) == []
  {
    if ids != [] {
      BucketMembers(ids[..|ids| - 1], file);
      assert forall k :: 0 <= k < |ids| - 1 ==> ids[..|ids| - 1][k] == ids[k];
    }
  }

  /** Each routed id is in its own file's bucket and in no other; an unrouted id is in no bucket. */
  lemma IdsInBuckets(ids: seq<string>, id: string, f: string)
    requires f in Grouped(ids)
    ensures id in Grouped(ids)[f] <==> id in ids && FileForPolicy(id) == Some(f)
  {
    GroupedSpec(ids);
    BucketMembers(ids, f);
    if id in ids && FileForPolicy(id) == Some(f) {
      BucketHolds(ids, id, f);
    }
  }

  lemma {:induction false} BucketHolds(ids: seq<string>, id: string, f: string)
    requires id in ids && FileForPolicy(id) == Some(f)
    ensures id in Bucket(ids, f)
  {
    var pre := ids[..|ids| - 1];
    if id != ids[|ids| - 1] {
      assert ids == pre + [ids[|ids| - 1]];
      BucketHolds(pre, id, f);
    }
  }

  /** The grouping loop of `load_policy_metadata`. */
  method GroupByFile(policyIds: seq<string>) returns (filesToLoad: map<string, seq<string>>)
    ensures filesToLoad == Grouped(policyIds)
  {
    filesToLoad := map[];
    var n := 0;
    while n < |policyIds|
      invariant 0 <= n <= |policyIds|
      invariant filesToLoad == Grouped(policyIds[..n])
    {
      var pid := policyIds[n];
      assert policyIds[..n + 1][..n] == policyIds[..n];
      var filename := GetFileForPolicy(pid);
      if filename.Some? {
        var bucket := if filename.value in filesToLoad then filesToLoad[filename.value] else [];
        filesToLoad := filesToLoad[filename.value := bucket + [pid]];
      }
      n := n + 1;
    }
    assert policyIds[..|policyIds|] == policyIds;
  }
}
