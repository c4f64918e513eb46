/** The file discovery of the catalog import script: under a root holding
    one directory per sport, every ".json" file of every walked directory
    is listed with its sport's name. The file system is a given map from a
    directory path to what os.walk yields for it. */
module CatalogFiles {
  import opened Common
  import opened Query

  /** SPORT_DIRS in its declared order: directory name, sport name. */
  const SportDirs: seq<(string, string)> :=
    [("baseball", "Baseball"), ("basketball", "Basketball"), ("football", "Football"), ("hockey", "Hockey")]

  /** One step of os.walk: a directory and the names of the files in it. */
  datatype WalkEntry = WalkEntry(dirpath: string, filenames: seq<string>)

  /** os.walk of each directory; a path with no entry is not a directory. */
  type Walks = map<string, seq<WalkEntry>>

  /** os.path.join of two parts with POSIX separators. */
  function PathJoin(a: string, b: string): (p: string)
    ensures EndsWith(p, b)
  {
    if StartsWith(b, "/") then b
    else if a == [] || EndsWith(a, "/") then a + b
    else a + "/" + b
  }

  /** The sport filter: a non-empty only_sport must match case-insensitively. */
  predicate SportWanted(onlySport: Option<string>, sportName: string) {
    !(Truthy(onlySport) && Lower(sportName) != Lower(onlySport.value))
  }

  /** A walked directory skipped unless categories are included. */
  predicate Skipped(dirpath: string, includeCategories: bool) {
    Contains(Lower(ReplaceChar(dirpath, '\\', '/')), "/categories") && !includeCategories
  }

  predicate IsJson(fn: string) {
    EndsWith(Lower(fn), ".json")
  }

  /** The pair listed for one file name of a directory, if any. */
  function FileHit(dirpath: string, sport: string, fn: string): seq<(string, string)> {
    if IsJson(fn) then [(PathJoin(dirpath, fn), sport)] else []
  }

  /** The pairs listed for one step of the walk. */
  function EntryHits(sport: string, includeCategories: bool, e: WalkEntry): seq<(string, string)> {
    if Skipped(e.dirpath, includeCategories) then []
    else Flat(e.filenames, fn => FileHit(e.dirpath, sport, fn))
  }

  /** The pairs listed for one entry of SPORT_DIRS. */
  function SportHits(root: string, onlySport: Option<string>, includeCategories: bool,
                     walks: Walks, dir: (string, string)): seq<(string, string)> {
    var sportDir := PathJoin(root, dir.0);
    if !SportWanted(onlySport, dir.1) || sportDir !in walks then []
    else Flat(walks[sportDir], e => EntryHits(dir.1, includeCategories, e))
  }

  function Listed(root: string, onlySport: Option<string>, includeCategories: bool, walks: Walks): seq<(string, string)> {
    Flat(SportDirs, dir => SportHits(root, onlySport, includeCategories, walks, dir))
  }

  /** The innermost loop of list_release_files_under_root: the ".json"
      files of one walked directory. */
  method DirFiles(e: WalkEntry, sport: string) returns (hits: seq<(string, string)>)
    ensures hits == Flat(e.filenames, fn => FileHit(e.dirpath, sport, fn))
  {
    var byFile := fn => FileHit(e.dirpath, sport, fn);
    hits := [];
    for i := 0 to |e.filenames|
      invariant hits == Flat(e.filenames[..i], byFile)
    {
      var fn := e.filenames[i];
      FlatSnoc(e.filenames, i, byFile);
      if EndsWith(Lower(fn), ".json") {
        hits := hits + [(PathJoin(e.dirpath, fn), sport)];
      }
    }
    assert e.filenames[..|e.filenames|] == e.filenames;
  }

  /** The walk loop of list_release_files_under_root for one sport
      directory, skipping category directories unless they are included. */
  method WalkFiles(entries: seq<WalkEntry>, sport: string, includeCategories: bool)
    returns (hits: seq<(string, string)>)
    ensures hits == Flat(entries, e => EntryHits(sport, includeCategories, e))
  {
    var byEntry := e => EntryHits(sport, includeCategories, e);
    hits := [];
    for w := 0 to |entries|
      invariant hits == Flat(entries[..w], byEntry)
    {
      var e := entries[w];
      FlatSnoc(entries, w, byEntry);
      var norm := Lower(ReplaceChar(e.dirpath, '\\', '/'));
      if Contains(norm, "/categories") && !includeCategories {
        assert byEntry(e) == [];
        continue;
      }
      var more := DirFiles(e, sport);
      hits := hits + more;
    }
    assert entries[..|entries|] == entries;
  }

  /** list_release_files_under_root. */
  method ListReleaseFiles(root: string, onlySport: Option<string>, includeCategories: bool, walks: Walks)
    returns (files: seq<(string, string)>)
    ensures files == Listed(root, onlySport, includeCategories, walks)
  {
    var bySport := dir => SportHits(root, onlySport, includeCategories, walks, dir);
    files := [];
    for k := 0 to |SportDirs|
      invariant files == Flat(SportDirs[..k], bySport)
    {
      var dir := SportDirs[k];
      FlatSnoc(SportDirs, k, bySport);
      var sportDir := PathJoin(root, dir.0);
      if !SportWanted(onlySport, dir.1) || sportDir !in walks {
        continue;
      }
      var more := WalkFiles(walks[sportDir], dir.1, includeCategories);
      files := files + more;
    }
    assert SportDirs[..|SportDirs|] == SportDirs;
  }

  // ------------------------------------------------------------- lemmas

  /** Lower-casing works character by character, so a suffix of the lower
      case is the lower case of the suffix. */
  lemma LowerSuffix(a: string, b: string)
    requires EndsWith(a, b)
    ensures Lower(a)[|a| - |b|..] == Lower(b)
  {
  }

  lemma SuffixOfSuffix(a: string, b: string, c: string)
    requires EndsWith(a, b) && EndsWith(b, c)
    ensures EndsWith(a, c)
  {
    assert a[|a| - |b|..][|b| - |c|..] == a[|a| - |c|..];
  }

  /** A ".json" name stays one when joined to a directory. */
  lemma JoinedJson(dirpath: string, fn: string)
    requires IsJson(fn)
    ensures IsJson(PathJoin(dirpath, fn))
  {
    var p := PathJoin(dirpath, fn);
    LowerSuffix(p, fn);
    SuffixOfSuffix(Lower(p), Lower(fn), ".json");
  }

  /** The pairs of one walk step are ".json" files with the given sport. */
  lemma EntryHitsSound(sport: string, includeCategories: bool, e: WalkEntry, x: (string, string))
    requires x in EntryHits(sport, includeCategories, e)
    ensures IsJson(x.0) && x.1 == sport
  {
    var byFile := fn => FileHit(e.dirpath, sport, fn);
    FlatSpec(e.filenames, byFile);
    var i :| 0 <= i < |e.filenames| && x in byFile(e.filenames[i]);
    JoinedJson(e.dirpath, e.filenames[i]);
  }

  /** The pairs of one sport directory are ".json" files with its sport,
      and only a wanted, existing sport directory has any. */
  lemma SportHitsSound(root: string, onlySport: Option<string>, includeCategories: bool,
                       walks: Walks, dir: (string, string), x: (string, string))
    requires x in SportHits(root, onlySport, includeCategories, walks, dir)
    ensures IsJson(x.0) && x.1 == dir.1
    ensures SportWanted(onlySport, dir.1) && PathJoin(root, dir.0) in walks
  {
    var es := walks[PathJoin(root, dir.0)];
    var byEntry := e => EntryHits(dir.1, includeCategories, e);
    FlatSpec(es, byEntry);
    var j :| 0 <= j < |es| && x in byEntry(es[j]);
    EntryHitsSound(dir.1, includeCategories, es[j], x);
  }

  /** Every listed file is a ".json" file under the directory of a sport
      that passes the filter and exists, paired with that sport's name. */
  lemma ListedSound(root: string, onlySport: Option<string>, includeCategories: bool, walks: Walks,
                    x: (string, string))
    requires x in Listed(root, onlySport, includeCategories, walks)
    ensures IsJson(x.0) && SportWanted(onlySport, x.1)
    ensures exists k :: 0 <= k < |SportDirs| && SportDirs[k].1 == x.1 && PathJoin(root, SportDirs[k].0) in walks
  {
    var bySport := dir => SportHits(root, onlySport, includeCategories, walks, dir);
    FlatSpec(SportDirs, bySport);
    var k :| 0 <= k < |SportDirs| && x in bySport(SportDirs[k]);
    SportHitsSound(root, onlySport, includeCategories, walks, SportDirs[k], x);
  }

  /** Every ".json" file of a walked directory that is not skipped, under
      the directory of a sport that passes the filter, is listed with that
      sport's name. */
  lemma ListedComplete(root: string, onlySport: Option<string>, includeCategories: bool, walks: Walks,
                       k: nat, j: nat, i: nat)
    requires k < |SportDirs| && SportWanted(onlySport, SportDirs[k].1)
    requires PathJoin(root, SportDirs[k].0) in walks
    requires var es := walks[PathJoin(root, SportDirs[k].0)];
      j < |es| && !Skipped(es[j].dirpath, includeCategories) && i < |es[j].filenames| && IsJson(es[j].filenames[i])
    ensures var e := walks[PathJoin(root, SportDirs[k].0)][j];
      (PathJoin(e.dirpath, e.filenames[i]), SportDirs[k].1) in Listed(root, onlySport, includeCategories, walks)
  {
    var dir := SportDirs[k];
    var es := walks[PathJoin(root, dir.0)];
    var e := es[j];
    var x := (PathJoin(e.dirpath, e.filenames[i]), dir.1);
    var byFile := fn => FileHit(e.dirpath, dir.1, fn);
    FlatSpec(e.filenames, byFile);
    assert x in byFile(e.filenames[i]);
    var byEntry := e => EntryHits(dir.1, includeCategories, e);
    FlatSpec(es, byEntry);
    assert x in byEntry(es[j]);
    var bySport := dir => SportHits(root, onlySport, includeCategories, walks, dir);
    FlatSpec(SportDirs, bySport);
    assert x in bySport(SportDirs[k]);
  }
}
