/**
 The filesystem half of an account merge: one user directory folded into
 another, and its agreement with the rewritten paths.
 */
module ArtifactFold {
  import opened Wrappers
  import opened AccountMerge

  type Bytes = seq<bv8>

  /** Everything below one child of a user directory: relative path (empty for the child itself) to content. */
  type Tree = map<string, Bytes>

  /** The user directories under the artifacts root, each a map of its children. */
  type Tops = map<string, map<string, Tree>>

  datatype FoldError = FileExists

  /** Renaming the children one by one, or the directory itself when the destination is free. */
  function Folded(tops: Tops, source: string, destination: string): Result<Tops, FoldError> {
    if source !in tops then Success(tops)
    else if destination !in tops then Success((tops - {source})[destination := tops[source]])
    else if tops[source].Keys * tops[destination].Keys != {} then Failure(FileExists)
    else Success(tops[destination := tops[destination] + tops[source]] - {source})
  }

  lemma FoldRefusesIff(tops: Tops, source: string, destination: string)
    ensures Folded(tops, source, destination).Failure?
        <==> source in tops && destination in tops && exists c :: c in tops[source] && c in tops[destination]
    ensures source !in tops ==> Folded(tops, source, destination) == Success(tops)
  {
    if source in tops && destination in tops {
      assert forall c :: c in tops[source] && c in tops[destination] <==> c in tops[source].Keys * tops[destination].Keys;
    }
  }

  class Disk {
    var tops: Tops

    /** `apply_artifact_move`: collisions are checked before anything is renamed. */
    method ApplyArtifactMove(source: string, destination: string) returns (r: Option<FoldError>)
      modifies this
      ensures match Folded(old(tops), source, destination)
              case Success(after) => r == None && tops == after
              case Failure(e) => r == Some(e) && tops == old(tops)
      ensures r.Some? <==> source in old(tops) && destination in old(tops)
                           && exists c :: c in old(tops)[source] && c in old(tops)[destination]
      ensures source !in old(tops) || r.Some? ==> tops == old(tops)
    {
      FoldRefusesIff(tops, source, destination);
      if source !in tops {
        return None;
      }
      if destination !in tops {
        tops := (tops - {source})[destination := tops[source]];
        return None;
      }
      var children := tops[source].Keys;
      var unchecked := children;
      while unchecked != {}
        invariant unchecked <= children
        invariant forall c :: c in children && c !in unchecked ==> c !in tops[destination]
        decreases unchecked
      {
        var c :| c in unchecked;
        if c in tops[destination] {
          assert c in tops[source].Keys * tops[destination].Keys;
          return Some(FileExists);
        }
        unchecked := unchecked - {c};
      }
      assert tops[source].Keys * tops[destination].Keys == {};
      MoveChildren(source, destination);
      r := None;
    }

    /** The renames, child by child, then the removal of the emptied source. */
    method MoveChildren(source: string, destination: string)
      requires source in tops && destination in tops
      requires tops[source].Keys * tops[destination].Keys == {}
      modifies this
      ensures tops == old(tops)[destination := old(tops)[destination] + old(tops)[source]] - {source}
    {
      ghost var before := tops;
      var left := tops[source].Keys;
      assert before[destination] + (before[source] - left) == before[destination];
      while left != {}
        invariant left <= before[source].Keys && tops.Keys == before.Keys
        invariant forall d :: d in tops && d != source && d != destination ==> tops[d] == before[d]
        invariant tops[source] == before[source] - (before[source].Keys - left)
        invariant tops[destination] == before[destination] + (before[source] - left)
        decreases left
      {
        var c :| c in left;
        RenameOne(before[source], before[destination], left, c);
        tops := tops[destination := tops[destination][c := tops[source][c]]][source := tops[source] - {c}];
        left := left - {c};
      }
      assert before[source] - {} == before[source];
      assert source == destination ==> before[source].Keys * before[source].Keys == before[source].Keys;
      tops := tops - {source};
    }
  }

  lemma RenameOne(source: map<string, Tree>, destination: map<string, Tree>, left: set<string>, c: string)
    requires left <= source.Keys && c in left
    ensures var here, there := source - (source.Keys - left), destination + (source - left);
            && c in here && here - {c} == source - (source.Keys - (left - {c}))
            && there[c := here[c]] == destination + (source - (left - {c}))
  {
  }

  // ---------- files by stored path ----------

  function FirstSlash(s: string): (i: nat)
    ensures i <= |s| && (i < |s| ==> s[i] == '/') && forall k :: 0 <= k < i ==> s[k] != '/'
  {
    if s == "" || s[0] == '/' then 0 else 1 + FirstSlash(s[1..])
  }

  /** The child a path inside a user directory goes through, and the rest of the path below it. */
  function Child(inner: string): string { inner[..FirstSlash(inner)] }

  function Below(inner: string): string { inner[FirstSlash(inner)..] }

  function FileIn(top: map<string, Tree>, inner: string): Option<Bytes> {
    if Child(inner) in top && Below(inner) in top[Child(inner)] then Some(top[Child(inner)][Below(inner)]) else None
  }

  predicate PlainName(dir: string) { '/' !in dir }

  /** The file an absolute path names, if it lies below a user directory of the artifacts root. */
  function FileAt(tops: Tops, root: string, p: string): Option<Bytes> {
    if !StartsWith(p, root + "/") then None
    else
      var rest := p[|root| + 1..];
      var i := FirstSlash(rest);
      if i == |rest| || rest[..i] !in tops then None else FileIn(tops[rest[..i]], rest[i + 1..])
  }

  lemma {:induction false} FirstSlashOf(dir: string, inner: string)
    requires PlainName(dir)
    ensures FirstSlash(dir + "/" + inner) == |dir|
  {
    var s := dir + "/" + inner;
    if dir != "" {
      assert s[0] == dir[0] && s[1..] == dir[1..] + "/" + inner;
      FirstSlashOf(dir[1..], inner);
    }
  }

  /** A path below a user directory names the file at its inner path in that directory. */
  lemma FileUnder(tops: Tops, root: string, dir: string, inner: string)
    requires PlainName(dir)
    ensures FileAt(tops, root, DirectoryPrefix(root, dir) + inner) == if dir in tops then FileIn(tops[dir], inner) else None
  {
    var p := DirectoryPrefix(root, dir) + inner;
    assert p == (root + "/") + (dir + "/" + inner);
    var rest := p[|root| + 1..];
    assert rest == dir + "/" + inner;
    FirstSlashOf(dir, inner);
    assert rest[..|dir|] == dir && rest[|dir| + 1..] == inner;
  }

  lemma PathParts(root: string, p: string)
    requires StartsWith(p, root + "/")
    ensures var rest := p[|root| + 1..];
            var i := FirstSlash(rest);
            PlainName(rest[..i]) && (i < |rest| ==> p == DirectoryPrefix(root, rest[..i]) + rest[i + 1..])
  {
    var rest := p[|root| + 1..];
    var i := FirstSlash(rest);
    assert p == (root + "/") + rest;
    if i < |rest| {
      assert rest == rest[..i] + "/" + rest[i + 1..];
    }
  }

  // ---------- rewritten paths and folded directories agree ----------

  /** Inner paths of a directory that took in another one without a collision. */
  lemma FoldedFile(destination: map<string, Tree>, source: map<string, Tree>, inner: string)
    requires destination.Keys * source.Keys == {}
    ensures var both := destination + source;
            && (Child(inner) in source ==> FileIn(both, inner) == FileIn(source, inner))
            && (Child(inner) !in source ==> FileIn(both, inner) == FileIn(destination, inner))
  {
  }

  /**
   A stored path below the old directory finds the same file after the fold at its
   rewritten place, exactly when its child was in the old directory or no file
   answers to the rewritten path already. A path that named a file always does.
   */
  lemma RewrittenPathFindsItsFile(tops: Tops, root: string, source: string, destination: string, inner: string)
    requires PlainName(source) && PlainName(destination) && source != destination
    requires Folded(tops, source, destination).Success?
    ensures var after := Folded(tops, source, destination).value;
            var oldPrefix, newPrefix := DirectoryPrefix(root, source), DirectoryPrefix(root, destination);
            var p := oldPrefix + inner;
            var q := Repoint(p, oldPrefix, newPrefix);
            && q == newPrefix + inner
            && (FileAt(tops, root, p).Some? ==> FileAt(after, root, q) == FileAt(tops, root, p))
            && (FileAt(after, root, q) == FileAt(tops, root, p)
                <==> (source in tops && Child(inner) in tops[source]) || FileAt(tops, root, q).None?)
  {
    var after := Folded(tops, source, destination).value;
    var oldPrefix, newPrefix := DirectoryPrefix(root, source), DirectoryPrefix(root, destination);
    var p := oldPrefix + inner;
    assert p[|oldPrefix|..] == inner;
    FileUnder(tops, root, source, inner);
    FileUnder(tops, root, destination, inner);
    FileUnder(after, root, destination, inner);
    if source in tops && destination in tops {
      FoldedFile(tops[destination], tops[source], inner);
    }
  }

  /** A file outside the old directory stays where it is, and its path is not rewritten. */
  lemma OtherFilesStay(tops: Tops, root: string, source: string, destination: string, p: string)
    requires PlainName(source) && PlainName(destination) && source != destination
    requires Folded(tops, source, destination).Success?
    requires FileAt(tops, root, p).Some? && !StartsWith(p, DirectoryPrefix(root, source))
    ensures var after := Folded(tops, source, destination).value;
            && Repoint(p, DirectoryPrefix(root, source), DirectoryPrefix(root, destination)) == p
            && FileAt(after, root, p) == FileAt(tops, root, p)
  {
    var after := Folded(tops, source, destination).value;
    PathParts(root, p);
    var rest := p[|root| + 1..];
    var dir, inner := rest[..FirstSlash(rest)], rest[FirstSlash(rest) + 1..];
    FileUnder(tops, root, dir, inner);
    FileUnder(after, root, dir, inner);
    assert dir != source;
    if dir == destination && source in tops {
      assert Child(inner) in tops[destination];
      assert Child(inner) !in tops[source].Keys * tops[destination].Keys;
      FoldedFile(tops[destination], tops[source], inner);
    }
  }

  /** A file named by a stored path is the same file after the fold, at its rewritten place if it lay below the old directory. */
  lemma FileSurvives(tops: Tops, root: string, source: string, destination: string, p: string)
    requires PlainName(source) && PlainName(destination) && source != destination
    requires Folded(tops, source, destination).Success?
    requires FileAt(tops, root, p).Some?
    ensures var q := Repoint(p, DirectoryPrefix(root, source), DirectoryPrefix(root, destination));
            FileAt(Folded(tops, source, destination).value, root, q) == FileAt(tops, root, p)
  {
    hide FileAt, Folded;
    var oldPrefix := DirectoryPrefix(root, source);
    if StartsWith(p, oldPrefix) {
      assert p == oldPrefix + p[|oldPrefix|..];
      RewrittenPathFindsItsFile(tops, root, source, destination, p[|oldPrefix|..]);
    } else {
      OtherFilesStay(tops, root, source, destination, p);
    }
  }

  // ---------- paths that name directories ----------

  /** Every file below directory `p` before is, after, the same file below directory `q`. */
  ghost predicate FilesBelowStay(tops: Tops, after: Tops, root: string, p: string, q: string) {
    forall x :: FileAt(tops, root, p + "/" + x).Some? ==> FileAt(after, root, q + "/" + x) == FileAt(tops, root, p + "/" + x)
  }

  /** The path is the directory that is folded away, or lies above it. */
  predicate IsAbove(p: string, oldPrefix: string) {
    StartsWith(oldPrefix, p + "/")
  }

  /** A prefix of a path below `p` is a prefix of `p`, or reaches below `p` itself. */
  lemma PrefixOfBelow(p: string, x: string, s: string)
    requires StartsWith(p + "/" + x, s)
    ensures StartsWith(p, s) || StartsWith(s, p + "/")
  {
    var d := p + "/" + x;
    assert d == (p + "/") + x && d[..|s|] == s;
    if |s| <= |p| {
      assert p[..|s|] == d[..|s|];
    } else {
      assert s[..|p| + 1] == d[..|p| + 1];
    }
  }

  lemma RepointBelow(p: string, x: string, oldPrefix: string, newPrefix: string)
    requires !IsAbove(p, oldPrefix)
    ensures Repoint(p + "/" + x, oldPrefix, newPrefix) == Repoint(p, oldPrefix, newPrefix) + "/" + x
  {
    var d := p + "/" + x;
    if StartsWith(d, oldPrefix) {
      PrefixOfBelow(p, x, oldPrefix);
      assert d[|oldPrefix|..] == p[|oldPrefix|..] + "/" + x;
    }
  }

  lemma Rejoin(f: string, s: string)
    ensures StartsWith(f, s) ==> f == s + f[|s|..]
  {
  }

  lemma NothingBelowOldDirectory(tops: Tops, root: string, source: string, destination: string, inner: string)
    requires PlainName(source) && source != destination && Folded(tops, source, destination).Success?
    ensures FileAt(Folded(tops, source, destination).value, root, DirectoryPrefix(root, source) + inner) == None
  {
    FileUnder(Folded(tops, source, destination).value, root, source, inner);
  }

  /**
   A stored directory keeps all its files, at its rewritten place, if and only if
   it is not the folded directory or one above it, or that directory has no file.
   */
  lemma DirectorySurvivesIff(tops: Tops, root: string, source: string, destination: string, p: string)
    requires PlainName(source) && PlainName(destination) && source != destination
    requires Folded(tops, source, destination).Success?
    ensures var oldPrefix := DirectoryPrefix(root, source);
            FilesBelowStay(tops, Folded(tops, source, destination).value, root, p,
                Repoint(p, oldPrefix, DirectoryPrefix(root, destination)))
            <==> !IsAbove(p, oldPrefix) || forall inner :: FileAt(tops, root, oldPrefix + inner) == None
  {
    hide FileAt, Folded;
    var after := Folded(tops, source, destination).value;
    var oldPrefix, newPrefix := DirectoryPrefix(root, source), DirectoryPrefix(root, destination);
    var q := Repoint(p, oldPrefix, newPrefix);
    if !IsAbove(p, oldPrefix) {
      forall x | FileAt(tops, root, p + "/" + x).Some?
        ensures FileAt(after, root, q + "/" + x) == FileAt(tops, root, p + "/" + x)
      {
        FileSurvives(tops, root, source, destination, p + "/" + x);
        RepointBelow(p, x, oldPrefix, newPrefix);
      }
    } else {
      assert |p| < |oldPrefix| && q == p;
      var rest := oldPrefix[|p| + 1..];
      assert oldPrefix == p + "/" + rest;
      if inner :| FileAt(tops, root, oldPrefix + inner).Some? {
        var x := rest + inner;
        assert p + "/" + x == oldPrefix + inner;
        NothingBelowOldDirectory(tops, root, source, destination, inner);
        assert !FilesBelowStay(tops, after, root, p, q);
      } else {
        forall x | FileAt(tops, root, p + "/" + x).Some?
          ensures FileAt(after, root, q + "/" + x) == FileAt(tops, root, p + "/" + x)
        {
          Rejoin(p + "/" + x, oldPrefix);
          OtherFilesStay(tops, root, source, destination, p + "/" + x);
        }
      }
    }
  }

  // ---------- the merged tables and the folded disk ----------

  /** What path `p` named before, path `q` names after: the file itself, or all files below the directory. */
  ghost predicate NamesTheSame(tops: Tops, after: Tops, root: string, p: string, q: string) {
    && (FileAt(tops, root, p).Some? ==> FileAt(after, root, q) == FileAt(tops, root, p))
    && FilesBelowStay(tops, after, root, p, q)
  }

  lemma PathNamesTheSame(tops: Tops, root: string, source: string, destination: string, p: string)
    requires PlainName(source) && PlainName(destination) && source != destination
    requires Folded(tops, source, destination).Success? && !IsAbove(p, DirectoryPrefix(root, source))
    ensures NamesTheSame(tops, Folded(tops, source, destination).value, root, p,
                         Repoint(p, DirectoryPrefix(root, source), DirectoryPrefix(root, destination)))
  {
    hide FileAt, Folded, FilesBelowStay, IsAbove;
    DirectorySurvivesIff(tops, root, source, destination, p);
    if FileAt(tops, root, p).Some? {
      FileSurvives(tops, root, source, destination, p);
    }
  }

  /** A column that holds a path: `artifact_dir`, or a name that ends in `_path`. */
  ghost predicate HoldsPath(c: string) {
    c == "artifact_dir" || exists stem :: c == stem + "_path"
  }

  /** No column comes or goes; a path of this owner below the old directory is now below the new one; the rest stays. */
  ghost predicate ColumnsRepointed(before: map<string, Value>, after: map<string, Value>, mine: bool,
                                   oldPrefix: string, newPrefix: string) {
    && after.Keys == before.Keys
    && (forall c :: c in before && !(mine && HoldsPath(c) && before[c].Text?) ==> after[c] == before[c])
    && (forall c, inner :: c in before && mine && HoldsPath(c) && before[c] == Text(oldPrefix + inner) ==>
          after[c] == Text(newPrefix + inner))
    && (forall c :: c in before && before[c].Text? && !(oldPrefix <= before[c].text) ==> after[c] == before[c])
  }

  lemma PrefixIs(root: string, dir: string)
    ensures DirectoryPrefix(root, dir) == root + "/" + dir + "/"
  {
  }

  lemma PathColumnMeans(c: string)
    ensures IsPathColumn(c) <==> HoldsPath(c)
  {
    if EndsWith(c, "_path") {
      assert c == c[..|c| - 5] + "_path";
    }
  }

  lemma RewriteMeans(row: Row, owner: UserId, oldPrefix: string, newPrefix: string)
    ensures ColumnsRepointed(row.columns, RewriteRow(row, owner, oldPrefix, newPrefix).columns, row.owner == owner,
                             oldPrefix, newPrefix)
  {
    hide IsPathColumn, HoldsPath;
    var after := RewriteRow(row, owner, oldPrefix, newPrefix).columns;
    forall c ensures IsPathColumn(c) <==> HoldsPath(c) { PathColumnMeans(c); }
    forall c, inner | c in row.columns && row.owner == owner && HoldsPath(c) && row.columns[c] == Text(oldPrefix + inner)
      ensures after[c] == Text(newPrefix + inner)
    {
      assert (oldPrefix + inner)[|oldPrefix|..] == inner;
    }
  }

  /** A row as the merge leaves it comes from the row of its id, with the columns rewritten if it is the survivor's. */
  lemma RowAfterMerge(tables: seq<Table>, report: Report, root: string, source: string, destination: string, i: nat, id: RowId)
    requires report.absorbed != Some(report.kept) && i < |tables|
    requires id in TablesAfter(tables, report, Some(root), source, destination)[i].rows
    ensures id in tables[i].rows
    ensures var before, after := tables[i].rows[id], TablesAfter(tables, report, Some(root), source, destination)[i].rows[id];
            && after.owner == (if Some(before.owner) == report.absorbed then report.kept else before.owner)
            && after.columns
               == RewriteRow(before.(owner := after.owner), report.kept,
                   DirectoryPrefix(root, source), DirectoryPrefix(root, destination)).columns
            && ColumnsRepointed(before.columns, after.columns, after.owner == report.kept,
                                root + "/" + source + "/", root + "/" + destination + "/")
  {
    hide RewriteRow, MergeTable, DirectoryPrefix, ColumnsRepointed;
    assert DirectoryPrefix(root, source) == root + "/" + source + "/" by { PrefixIs(root, source); }
    assert DirectoryPrefix(root, destination) == root + "/" + destination + "/" by { PrefixIs(root, destination); }
    var merged := MergedTables(tables, report.kept, report.absorbed)[i];
    if report.absorbed.Some? {
      MergeAccountsForEveryRow(tables[i], report.kept, report.absorbed.value);
    }
    RewriteKeepsTuple(Key(false, [], None), merged.rows[id], report.kept,
        DirectoryPrefix(root, source), DirectoryPrefix(root, destination));
    RewriteMeans(merged.rows[id], report.kept, DirectoryPrefix(root, source), DirectoryPrefix(root, destination));
  }

  /**
   The two halves of a merge agree. For every row that is left in any table, moved
   from the absorbed account or not: each stored path names after rewrite and fold
   what it named before. It is asked that no stored path is the old directory
   itself or above it, and that nobody else stores a path below it.
   */
  lemma StoredPathsSurvive(tables: seq<Table>, report: Report, tops: Tops, root: string, source: string, destination: string,
                           i: nat, id: RowId, c: string)
    requires PlainName(source) && PlainName(destination) && source != destination
    requires Folded(tops, source, destination).Success?
    requires report.absorbed != Some(report.kept) && i < |tables|
    requires id in TablesAfter(tables, report, Some(root), source, destination)[i].rows && id in tables[i].rows
    requires c in tables[i].rows[id].columns && IsPathColumn(c) && tables[i].rows[id].columns[c].Text?
    requires !IsAbove(tables[i].rows[id].columns[c].text, DirectoryPrefix(root, source))
    requires StartsWith(tables[i].rows[id].columns[c].text, DirectoryPrefix(root, source)) ==>
               tables[i].rows[id].owner == report.kept || Some(tables[i].rows[id].owner) == report.absorbed
    ensures var p := tables[i].rows[id].columns[c].text;
            var columns := TablesAfter(tables, report, Some(root), source, destination)[i].rows[id].columns;
            && c in columns && columns[c].Text?
            && NamesTheSame(tops, Folded(tops, source, destination).value, root, p, columns[c].text)
  {
    hide IsPathColumn, NamesTheSame, DirectoryPrefix, Folded, IsAbove, TablesAfter;
    RowAfterMerge(tables, report, root, source, destination, i, id);
    PathNamesTheSame(tops, root, source, destination, tables[i].rows[id].columns[c].text);
  }

  /** A second merge of the same pair finds nothing to do: no source, and no path left to rewrite. */
  lemma FoldIsOnce(tops: Tops, root: string, source: string, destination: string, p: string)
    requires |source| == |destination| && source != destination && Folded(tops, source, destination).Success?
    ensures var after := Folded(tops, source, destination).value;
            && source !in after && Folded(after, source, destination) == Success(after)
    ensures var oldPrefix, newPrefix := DirectoryPrefix(root, source), DirectoryPrefix(root, destination);
            Repoint(Repoint(p, oldPrefix, newPrefix), oldPrefix, newPrefix) == Repoint(p, oldPrefix, newPrefix)
  {
    var oldPrefix, newPrefix := DirectoryPrefix(root, source), DirectoryPrefix(root, destination);
    assert oldPrefix[|root| + 1..][..|source|] == source && newPrefix[|root| + 1..][..|source|] == destination;
    RepointOnce(p, oldPrefix, newPrefix);
  }
}
