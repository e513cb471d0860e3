/**
 Where the file-system artifact driver puts an artifact: names are validated,
 then joined onto the base directory the way filepath.Join does, with "." and
 ".." resolved. A path is the sequence of its components.
 */
module ArtifactLayout {
  import opened Wrappers
  import opened Strings

  type Path = seq<string>

  const MAX_NAME: nat := 128

  predicate NameChar(c: char)
  {
    'a' <= c <= 'z' || 'A' <= c <= 'Z' || '0' <= c <= '9' || c == '_' || c == '.' || c == '-'
  }

  /** The pattern of ids and of the parts of a namespace. */
  predicate MatchesPattern(s: string)
  {
    1 <= |s| <= MAX_NAME && forall i :: 0 <= i < |s| ==> NameChar(s[i])
  }

  datatype NameError = Required | IsDots | BadPattern | TooManySeparators | BadPart

  function ValidateId(id: string): Option<NameError>
  {
    if id == "" then Some(Required)
    else if id == "." || id == ".." then Some(IsDots)
    else if !MatchesPattern(id) then Some(BadPattern)
    else None
  }

  /** The first thing wrong with a part, going left to right. */
  function FirstBadPart(parts: seq<string>): Option<NameError>
  {
    if parts == [] then None
    else if parts[0] == "" || parts[0] == "." || parts[0] == ".." then Some(BadPart)
    else if !MatchesPattern(parts[0]) then Some(BadPattern)
    else FirstBadPart(parts[1..])
  }

  function ValidateNamespace(ns: string): Option<NameError>
  {
    if ns == "" then Some(Required)
    else if |Split(ns, TENANT_SEP)| > 2 then Some(TooManySeparators)
    else FirstBadPart(Split(ns, TENANT_SEP))
  }

  predicate GoodNames(ns: string, id: string)
  {
    ValidateNamespace(ns).None? && ValidateId(id).None?
  }

  // ----- Paths -----

  /** Join one component onto a cleaned path. */
  function Join(p: Path, component: string): Path
  {
    if component == "" || component == "." then p
    else if component == ".." then (if p == [] then [] else p[..|p| - 1])
    else p + [component]
  }

  function Shard(id: string): string
  {
    if |id| >= 2 then id[..2] else id
  }

  function Dir(base: Path, ns: string, id: string): Path
  {
    Join(Join(base, ns), Shard(id))
  }

  function DataPath(base: Path, ns: string, id: string): Path
  {
    Join(Dir(base, ns, id), id)
  }

  function MetaPath(base: Path, ns: string, id: string): Path
  {
    Join(Dir(base, ns, id), id + ".json")
  }

  /** The temporary file a metadata write goes through; its name is the metadata file's and ".tmp". */
  function MetaTmpPath(base: Path, ns: string, id: string): Path
  {
    Join(Dir(base, ns, id), id + ".json" + ".tmp")
  }

  /** Everything an artifact occupies, but for the temporary file of an upload in progress. */
  function Footprint(base: Path, ns: string, id: string): set<Path>
  {
    {DataPath(base, ns, id), MetaPath(base, ns, id), MetaTmpPath(base, ns, id)}
  }

  /** An id whose shard is "..", so that its directory is the base itself. */
  predicate Escapes(id: string)
  {
    |id| >= 2 && id[..2] == ".."
  }

  /** Ids that keep to their namespace and never look like another id's metadata file. */
  predicate PlainId(id: string)
  {
    !Escapes(id) && !EndsWith(id, ".json") && !EndsWith(id, ".json.tmp")
  }

  // ----- What validation gives -----

  lemma NamespaceIsAComponent(ns: string)
    requires ValidateNamespace(ns).None?
    ensures ns != "" && ns != "." && ns != ".."
  {
    SplitWhole(".", TENANT_SEP);
    SplitWhole("..", TENANT_SEP);
  }

  lemma NamesAreComponents(id: string)
    requires ValidateId(id).None?
    ensures id != "" && id != "." && id != ".."
    ensures id + ".json" != "" && id + ".json" != "." && id + ".json" != ".."
    ensures id + ".json" + ".tmp" != "" && id + ".json" + ".tmp" != "." && id + ".json" + ".tmp" != ".."
  {
    assert (id + ".json")[|id| + 1] == 'j';
    assert (id + ".json" + ".tmp")[|id| + 1] == 'j';
  }

  /**
   A validated artifact lives in its shard of its namespace, unless its id begins with "..": then it lives in the base
   directory.
   */
  lemma DirOf(base: Path, ns: string, id: string)
    requires GoodNames(ns, id)
    ensures Dir(base, ns, id) == if Escapes(id) then base else base + [ns, Shard(id)]
    ensures DataPath(base, ns, id) == Dir(base, ns, id) + [id]
    ensures MetaPath(base, ns, id) == Dir(base, ns, id) + [id + ".json"]
    ensures MetaTmpPath(base, ns, id) == Dir(base, ns, id) + [id + ".json" + ".tmp"]
  {
    NamespaceIsAComponent(ns);
    NamesAreComponents(id);
    assert Join(base, ns) == base + [ns];
    if Escapes(id) {
      assert (base + [ns])[..|base|] == base;
    } else {
      assert Shard(id) != "" && Shard(id) != "." && Shard(id) != "..";
      assert base + [ns] + [Shard(id)] == base + [ns, Shard(id)];
    }
  }

  lemma SnocEqual(d1: Path, n1: string, d2: Path, n2: string)
    ensures d1 + [n1] == d2 + [n2] <==> d1 == d2 && n1 == n2
  {
    if d1 + [n1] == d2 + [n2] {
      assert (d1 + [n1])[|d1|] == (d2 + [n2])[|d2|];
      assert (d1 + [n1])[..|d1|] == (d2 + [n2])[..|d2|];
    }
  }

  lemma SameDir(base: Path, ns1: string, id1: string, ns2: string, id2: string)
    requires GoodNames(ns1, id1) && GoodNames(ns2, id2)
    ensures Dir(base, ns1, id1) == Dir(base, ns2, id2) <==>
              (Escapes(id1) && Escapes(id2)) ||
              (!Escapes(id1) && !Escapes(id2) && ns1 == ns2 && Shard(id1) == Shard(id2))
  {
    DirOf(base, ns1, id1);
    DirOf(base, ns2, id2);
    var d1, d2 := base + [ns1, Shard(id1)], base + [ns2, Shard(id2)];
    assert d1[|base|] == ns1 && d1[|base| + 1] == Shard(id1);
    assert d2[|base|] == ns2 && d2[|base| + 1] == Shard(id2);
  }

  /** `longer` is the metadata file, or its temporary file, of `id`. */
  predicate IsSidecarOf(longer: string, id: string)
  {
    longer == id + ".json" || longer == id + ".json" + ".tmp"
  }

  function FileNames(id: string): set<string>
  {
    {id, id + ".json", id + ".json" + ".tmp"}
  }

  lemma SuffixesDiffer(id1: string, id2: string)
    ensures id1 + ".json" == id2 + ".json" <==> id1 == id2
    ensures id1 + ".json" + ".tmp" == id2 + ".json" + ".tmp" <==> id1 == id2
    ensures id1 + ".json" != id2 + ".json" + ".tmp"
  {
    var a, b := id1 + ".json", id2 + ".json";
    var c, d := a + ".tmp", b + ".tmp";
    assert a[..|id1|] == id1 && b[..|id2|] == id2 && c[..|id1|] == id1 && d[..|id2|] == id2;
    assert a[|a| - 1] == 'n' && d[|d| - 1] == 'p';
  }

  lemma NamesMeet(id1: string, id2: string)
    ensures FileNames(id1) * FileNames(id2) != {} <==> id1 == id2 || IsSidecarOf(id1, id2) || IsSidecarOf(id2, id1)
  {
    SuffixesDiffer(id1, id2);
    SuffixesDiffer(id2, id1);
    if id1 == id2 || IsSidecarOf(id1, id2) {
      assert id1 in FileNames(id1) * FileNames(id2);
    }
    if IsSidecarOf(id2, id1) {
      assert id2 in FileNames(id1) * FileNames(id2);
    }
    if FileNames(id1) * FileNames(id2) != {} {
      var n :| n in FileNames(id1) * FileNames(id2);
    }
  }

  function Under(d: Path, names: set<string>): set<Path>
  {
    set n | n in names :: d + [n]
  }

  lemma UnderMeets(d1: Path, names1: set<string>, d2: Path, names2: set<string>)
    ensures Under(d1, names1) * Under(d2, names2) != {} <==> d1 == d2 && names1 * names2 != {}
  {
    if d1 == d2 && names1 * names2 != {} {
      var n :| n in names1 * names2;
      assert d1 + [n] in Under(d1, names1) * Under(d2, names2);
    }
    if Under(d1, names1) * Under(d2, names2) != {} {
      var p :| p in Under(d1, names1) * Under(d2, names2);
      var n1 :| n1 in names1 && p == d1 + [n1];
      var n2 :| n2 in names2 && p == d2 + [n2];
      SnocEqual(d1, n1, d2, n2);
      assert n1 in names1 * names2;
    }
  }

  lemma FootprintIsUnder(base: Path, ns: string, id: string)
    requires GoodNames(ns, id)
    ensures Footprint(base, ns, id) == Under(Dir(base, ns, id), FileNames(id))
  {
    DirOf(base, ns, id);
  }

  /** When two artifacts share a file, read off their names. */
  predicate Collide(ns1: string, id1: string, ns2: string, id2: string)
  {
    && (ns1 == ns2 || Escapes(id1))
    && (id1 == id2 || (|id2| >= 2 && IsSidecarOf(id1, id2)) || (|id1| >= 2 && IsSidecarOf(id2, id1)))
  }

  lemma SidecarShard(longer: string, id: string)
    requires IsSidecarOf(longer, id) && id != ""
    ensures Shard(longer) == Shard(id) <==> |id| >= 2
    ensures |id| >= 2 ==> (Escapes(longer) <==> Escapes(id))
  {
    if |id| >= 2 {
      assert longer[..2] == id[..2];
    }
  }

  /** Validated artifacts share a file exactly when their names collide. */
  lemma FilesAreSharedExactlyOnCollision(base: Path, ns1: string, id1: string, ns2: string, id2: string)
    requires GoodNames(ns1, id1) && GoodNames(ns2, id2)
    ensures Footprint(base, ns1, id1) * Footprint(base, ns2, id2) != {} <==> Collide(ns1, id1, ns2, id2)
  {
    FootprintIsUnder(base, ns1, id1);
    FootprintIsUnder(base, ns2, id2);
    UnderMeets(Dir(base, ns1, id1), FileNames(id1), Dir(base, ns2, id2), FileNames(id2));
    SameDir(base, ns1, id1, ns2, id2);
    NamesMeet(id1, id2);
    if IsSidecarOf(id1, id2) {
      SidecarShard(id1, id2);
    }
    if IsSidecarOf(id2, id1) {
      SidecarShard(id2, id1);
    }
  }

  /** A file of the first artifact stands where a directory of the second has to be. */
  ghost predicate StandsInTheWay(base: Path, ns1: string, id1: string, ns2: string, id2: string)
  {
    exists p, q :: p in Footprint(base, ns1, id1) && q in Footprint(base, ns2, id2) && p < q
  }

  /** The same, read off the names: the file of an id in the base directory is named as a namespace. */
  predicate Blocks(id1: string, ns2: string, id2: string)
  {
    Escapes(id1) && !Escapes(id2) && ns2 in FileNames(id1)
  }

  lemma ShorterPath(d1: Path, n1: string, d2: Path, n2: string)
    ensures d1 + [n1] < d2 + [n2] <==> |d1| < |d2| && d1 == d2[..|d1|] && n1 == d2[|d1|]
  {
    var p, q := d1 + [n1], d2 + [n2];
    if |d1| < |d2| {
      assert q[..|p|] == d2[..|d1|] + [d2[|d1|]];
      if p < q {
        assert p == q[..|p|];
        assert p[..|d1|] == d1 && p[|d1|] == n1;
        assert q[..|p|][..|d1|] == d2[..|d1|] && q[..|p|][|d1|] == d2[|d1|];
      }
    }
  }

  /** An artifact's file is in the way of another's directory exactly when the names say so. */
  lemma DirectoriesAreBlockedExactly(base: Path, ns1: string, id1: string, ns2: string, id2: string)
    requires GoodNames(ns1, id1) && GoodNames(ns2, id2)
    ensures StandsInTheWay(base, ns1, id1, ns2, id2) <==> Blocks(id1, ns2, id2)
  {
    var d1, d2 := Dir(base, ns1, id1), Dir(base, ns2, id2);
    FootprintIsUnder(base, ns1, id1);
    FootprintIsUnder(base, ns2, id2);
    DirOf(base, ns1, id1);
    DirOf(base, ns2, id2);
    assert (base + [ns2, Shard(id2)])[..|base|] == base;
    if Blocks(id1, ns2, id2) {
      ShorterPath(d1, ns2, d2, id2);
      assert d1 + [ns2] in Under(d1, FileNames(id1)) && d2 + [id2] in Under(d2, FileNames(id2));
    }
    forall p, q | p in Under(d1, FileNames(id1)) && q in Under(d2, FileNames(id2)) && p < q
      ensures Blocks(id1, ns2, id2)
    {
      var n1 :| n1 in FileNames(id1) && p == d1 + [n1];
      var n2 :| n2 in FileNames(id2) && q == d2 + [n2];
      ShorterPath(d1, n1, d2, n2);
    }
  }

  /** Plain ids never collide, across namespaces or within one. */
  lemma PlainIdsAreDisjoint(base: Path, ns1: string, id1: string, ns2: string, id2: string)
    requires GoodNames(ns1, id1) && GoodNames(ns2, id2) && PlainId(id1) && PlainId(id2)
    requires ns1 != ns2 || id1 != id2
    ensures Footprint(base, ns1, id1) * Footprint(base, ns2, id2) == {}
  {
    FilesAreSharedExactlyOnCollision(base, ns1, id1, ns2, id2);
    SidecarsAreNotPlain(id1, id2);
    SidecarsAreNotPlain(id2, id1);
    assert !Collide(ns1, id1, ns2, id2);
  }

  lemma SidecarsAreNotPlain(longer: string, id: string)
    ensures IsSidecarOf(longer, id) ==> !PlainId(longer)
  {
    assert (id + ".json")[|id|..] == ".json";
    assert id + ".json" + ".tmp" == id + ".json.tmp";
    assert (id + ".json.tmp")[|id|..] == ".json.tmp";
  }

  /** The premise is needed: an id such as "..." passes validation and names the same file in every namespace. */
  lemma EscapingIdsCollide(base: Path, ns1: string, ns2: string, id: string)
    requires GoodNames(ns1, id) && GoodNames(ns2, id) && Escapes(id)
    ensures DataPath(base, ns1, id) == DataPath(base, ns2, id) == base + [id]
  {
    DirOf(base, ns1, id);
    DirOf(base, ns2, id);
  }

  lemma ThreeDotsAreAnId()
    ensures ValidateId("...").None? && Escapes("...")
  {
    var id := "...";
    assert |id| == 3 && id[0] == id[1] == id[2] == '.';
    assert id[..2] == "..";
    assert MatchesPattern(id);
  }
}
