/// The game-data file listing: relative paths of local files and of files inside .pak
/// archives, with archives taking precedence over local files.
module DirManager {
  import opened Outcome
  import Ascii
  import Paths

  const RootMismatch := "root path doesn't match filename!"

  /** NormalizePath: lower case, and '/' replaced by '\'. */
  function NormalizePath(path: string): (r: string)
    ensures |r| == |path|
    ensures forall i :: 0 <= i < |path| ==> r[i] == (if path[i] == '/' then '\\' else Ascii.Lower(path[i]))
  {
    Ascii.ReplaceChar(Ascii.LowerString(path), '/', '\\')
  }

  /** A normalised path holds no '/' and no ASCII capital. */
  predicate Normal(path: string)
  {
    forall i :: 0 <= i < |path| ==> path[i] != '/' && !Ascii.IsUpper(path[i])
  }

  lemma NormalizedIsNormal(path: string)
    ensures Normal(NormalizePath(path))
  {
    var r := NormalizePath(path);
    forall i | 0 <= i < |r|
      ensures r[i] != '/' && !Ascii.IsUpper(r[i])
    {
    }
  }

  /** Normalising twice is normalising once. */
  lemma NormalizeIdempotent(path: string)
    ensures NormalizePath(NormalizePath(path)) == NormalizePath(path)
  {
    var r := NormalizePath(path);
    NormalizedIsNormal(path);
    assert forall i :: 0 <= i < |r| ==> NormalizePath(r)[i] == r[i];
  }

  /**
   * GetRelativePath: the normalised path must start with the root; the rest, with its
   * leading backslashes trimmed, is the relative path.
   */
  function GetRelativePath(root: string, path: string): (r: Result<string>)
    ensures r.Ok? <==> Ascii.StartsWith(NormalizePath(path), root)
    ensures r.Err? ==> r.error == RootMismatch
    ensures r.Ok? ==> var n := NormalizePath(path);
              |root| + |r.value| <= |n| && n[|n| - |r.value|..] == r.value
              && (forall i :: |root| <= i < |n| - |r.value| ==> n[i] == '\\')
              && (r.value == [] || r.value[0] != '\\')
  {
    var n := NormalizePath(path);
    if !Ascii.StartsWith(n, root) then Err(RootMismatch)
    else
      var t := Ascii.TrimStartChars(n[|root|..], {'\\'});
      assert n[|root|..][|n| - |root| - |t|..] == n[|n| - |t|..];
      Ok(t)
  }

  /**
   * MakePathRelativeToPak: drop from the relative path the pak's directory below the
   * root, then the leading separators. Substring throws when a part is too short.
   */
  function MakePathRelativeToPak(root: string, relativePath: string, pakPath: string): (r: Result<string>)
    ensures r.Ok? <==> |root| <= |Paths.DirectoryName(pakPath)| && |Paths.DirectoryName(pakPath)| - |root| <= |relativePath|
    ensures r.Err? ==> r.error == ArgumentOutOfRange
    ensures r.Ok? ==> var skip := |Paths.DirectoryName(pakPath)| - |root|;
              skip + |r.value| <= |relativePath| && relativePath[|relativePath| - |r.value|..] == r.value
              && (forall i :: skip <= i < |relativePath| - |r.value| ==> relativePath[i] in {'\\', '/'})
              && (r.value == [] || r.value[0] !in {'\\', '/'})
  {
    var directory := Paths.DirectoryName(pakPath);
    if |root| > |directory| then Err(ArgumentOutOfRange)
    else
      var relativeToPak := directory[|root|..];
      if |relativeToPak| > |relativePath| then Err(ArgumentOutOfRange)
      else Ok(Ascii.TrimStartChars(relativePath[|relativeToPak|..], {'\\', '/'}))
  }

  /** The case-insensitive ".pak" extension test of the listing. */
  predicate IsPak(path: string)
  {
    Ascii.EqualsIgnoreCase(Paths.Extension(path), ".pak")
  }

  /** The listing's value: None for a local file, Some(pak path) for a file inside that pak. */
  type Listing = map<string, Option<string>>

  // ---------------------------------------------------------------------------
  // The first loop: local files

  /** The enumerated files that are paks, in order. */
  function Paks(files: seq<string>): (ps: seq<string>)
    ensures forall k :: 0 <= k < |ps| ==> IsPak(ps[k]) && ps[k] in files
    decreases |files|
  {
    if files == [] then []
    else
      var front := Paks(files[..|files| - 1]);
      if IsPak(files[|files| - 1]) then front + [files[|files| - 1]] else front
  }

  /** One enumerated file: a pak is passed over, any other file is added as local; Add throws on a key present. */
  function AddLocal(root: string, l: Listing, f: string): Result<Listing>
  {
    if IsPak(f) then Ok(l)
    else
      match GetRelativePath(root, f)
      case Err(e) => Err(e)
      case Ok(key) => if key in l then Err(DuplicateKey) else Ok(l[key := None])
  }

  /** The first loop over the enumerated files, file by file. */
  function AddLocals(root: string, listing: Listing, files: seq<string>): Result<Listing>
    decreases |files|
  {
    if files == [] then Ok(listing)
    else
      match AddLocals(root, listing, files[..|files| - 1])
      case Err(e) => Err(e)
      case Ok(l) => AddLocal(root, l, files[|files| - 1])
  }

  /** Every mapping of `listing` is still in `l`, unchanged. */
  predicate KeptFrom(listing: Listing, l: Listing)
  {
    forall k :: k in listing ==> k in l && l[k] == listing[k]
  }

  /** Every key `l` adds to `listing` maps to local and is the relative path of some non-pak file of `files`. */
  predicate NewFromLocals(root: string, listing: Listing, l: Listing, files: seq<string>)
  {
    forall k :: k in l && k !in listing ==>
      l[k] == None && exists f :: f in files && !IsPak(f) && GetRelativePath(root, f) == Ok(k)
  }

  /** Every non-pak file of `files` has a relative path, and it is a key of `l`. */
  predicate CoversLocals(root: string, l: Listing, files: seq<string>)
  {
    forall f :: f in files && !IsPak(f) ==> GetRelativePath(root, f).Ok? && GetRelativePath(root, f).value in l
  }

  /** The local files were added: only non-pak files, as local, and nothing else changed. */
  lemma {:induction false} LocalsAreNonPakFiles(root: string, listing: Listing, files: seq<string>)
    requires AddLocals(root, listing, files).Ok?
    ensures var l := AddLocals(root, listing, files).value;
            KeptFrom(listing, l) && NewFromLocals(root, listing, l, files) && CoversLocals(root, l, files)
    decreases |files|
  {
    if files != [] {
      var front := files[..|files| - 1];
      var f := files[|files| - 1];
      LocalsAreNonPakFiles(root, listing, front);
      assert files == front + [f];
      LocalsGrow(root, listing, AddLocals(root, listing, front).value, front, f);
    }
  }

  /** One more file keeps the three facts of LocalsAreNonPakFiles. */
  lemma LocalsGrow(root: string, listing: Listing, l0: Listing, front: seq<string>, f: string)
    requires KeptFrom(listing, l0) && NewFromLocals(root, listing, l0, front) && CoversLocals(root, l0, front)
    requires AddLocal(root, l0, f).Ok?
    ensures var l := AddLocal(root, l0, f).value;
            KeptFrom(listing, l) && NewFromLocals(root, listing, l, front + [f]) && CoversLocals(root, l, front + [f])
  {
    var l := AddLocal(root, l0, f).value;
    LocalGrows(root, l0, f);
    NewGrow(root, listing, l0, l, front, f);
    CoversGrow(root, l0, l, front, f);
  }

  /** AddLocal only adds, and what it adds is the file's relative path, mapped to local. */
  lemma LocalGrows(root: string, l0: Listing, f: string)
    requires AddLocal(root, l0, f).Ok?
    ensures var l := AddLocal(root, l0, f).value;
            KeptFrom(l0, l)
            && (forall k :: k in l && k !in l0 ==> l[k] == None && !IsPak(f) && GetRelativePath(root, f) == Ok(k))
            && (!IsPak(f) ==> GetRelativePath(root, f).Ok? && GetRelativePath(root, f).value in l)
  {
  }

  lemma NewGrow(root: string, listing: Listing, l0: Listing, l: Listing, front: seq<string>, f: string)
    requires KeptFrom(listing, l0) && NewFromLocals(root, listing, l0, front) && KeptFrom(l0, l)
    requires forall k :: k in l && k !in l0 ==> l[k] == None && !IsPak(f) && GetRelativePath(root, f) == Ok(k)
    ensures KeptFrom(listing, l) && NewFromLocals(root, listing, l, front + [f])
  {
    forall k | k in l && k !in listing
      ensures l[k] == None && exists g :: g in front + [f] && !IsPak(g) && GetRelativePath(root, g) == Ok(k)
    {
      if k in l0 {
        var g :| g in front && !IsPak(g) && GetRelativePath(root, g) == Ok(k);
        assert g in front + [f];
      } else {
        assert f in front + [f];
      }
    }
  }

  lemma CoversGrow(root: string, l0: Listing, l: Listing, front: seq<string>, f: string)
    requires CoversLocals(root, l0, front) && KeptFrom(l0, l)
    requires !IsPak(f) ==> GetRelativePath(root, f).Ok? && GetRelativePath(root, f).value in l
    ensures CoversLocals(root, l, front + [f])
  {
    forall g | g in front + [f] && !IsPak(g)
      ensures GetRelativePath(root, g).Ok? && GetRelativePath(root, g).value in l
    {
      if g != f {
        assert g in front;
      }
    }
  }

  // ---------------------------------------------------------------------------
  // The second loop: files inside paks

  /** One pak entry: an existing local mapping is replaced by the pak, an existing pak mapping kept. */
  function AddPakEntry(l: Listing, key: string, pak: string): Listing
  {
    if key in l && l[key].Some? then l else l[key := Some(pak)]
  }

  /** All (key, pak) pairs, in order. */
  function AddPairs(l: Listing, pairs: seq<(string, string)>): Listing
    decreases |pairs|
  {
    if pairs == [] then l
    else
      var q := pairs[|pairs| - 1];
      AddPakEntry(AddPairs(l, pairs[..|pairs| - 1]), q.0, q.1)
  }

  /** The listing key of a file inside a pak: GetRelativePath(Path.Combine(GetDirectoryName(pak), file)). */
  function PakKey(root: string, pak: string, file: string): Result<string>
  {
    GetRelativePath(root, Paths.Combine(Paths.DirectoryName(pak), file))
  }

  /** The relative paths of one pak's files, each paired with the pak. */
  function PakPairs(root: string, pak: string, entries: seq<string>): Result<seq<(string, string)>>
    decreases |entries|
  {
    if entries == [] then Ok([])
    else
      match PakPairs(root, pak, entries[..|entries| - 1])
      case Err(e) => Err(e)
      case Ok(ps) =>
        match PakKey(root, pak, entries[|entries| - 1])
        case Err(e) => Err(e)
        case Ok(key) => Ok(ps + [(key, pak)])
  }

  /** The pairs of all paks, pak by pak. `pakFiles` gives the file names of the archive opened at a path. */
  function AllPairs(root: string, paks: seq<string>, pakFiles: string -> seq<string>): Result<seq<(string, string)>>
    decreases |paks|
  {
    if paks == [] then Ok([])
    else
      match AllPairs(root, paks[..|paks| - 1], pakFiles)
      case Err(e) => Err(e)
      case Ok(ps) =>
        match PakPairs(root, paks[|paks| - 1], pakFiles(paks[|paks| - 1]))
        case Err(e) => Err(e)
        case Ok(qs) => Ok(ps + qs)
  }

  /** The index of the first pair with this key. */
  predicate FirstWith(pairs: seq<(string, string)>, key: string, j: int)
  {
    0 <= j < |pairs| && pairs[j].0 == key && forall i :: 0 <= i < j ==> pairs[i].0 != key
  }

  /**
   * Paks take precedence: a key held by some pak maps to the first pak holding it,
   * unless it already mapped to a pak; other keys are unchanged.
   */
  lemma {:induction false} FirstPakWins(l: Listing, pairs: seq<(string, string)>, key: string)
    ensures var r := AddPairs(l, pairs);
            (forall j :: FirstWith(pairs, key, j) ==>
               key in r && r[key] == (if key in l && l[key].Some? then l[key] else Some(pairs[j].1)))
            && ((forall i :: 0 <= i < |pairs| ==> pairs[i].0 != key) ==>
               (key in r <==> key in l) && (key in l ==> r[key] == l[key]))
    decreases |pairs|
  {
    if pairs != [] {
      var front := pairs[..|pairs| - 1];
      FirstPakWins(l, front, key);
      forall j | FirstWith(pairs, key, j)
        ensures var r := AddPairs(l, pairs);
                key in r && r[key] == (if key in l && l[key].Some? then l[key] else Some(pairs[j].1))
      {
        if j < |front| {
          assert FirstWith(front, key, j);
        } else {
          assert forall i :: 0 <= i < |front| ==> front[i].0 != key;
        }
      }
      if forall i :: 0 <= i < |pairs| ==> pairs[i].0 != key {
        assert forall i :: 0 <= i < |front| ==> front[i].0 != key;
      }
    }
  }

  /** No pak entry turns a mapping back to local: a key held by a pak never maps to a local file afterwards. */
  lemma {:induction false} PakEntriesAreNeverLocal(l: Listing, pairs: seq<(string, string)>, i: nat)
    requires i < |pairs|
    ensures pairs[i].0 in AddPairs(l, pairs) && AddPairs(l, pairs)[pairs[i].0].Some?
    decreases |pairs|
  {
    var front := pairs[..|pairs| - 1];
    if i < |front| {
      assert front[i] == pairs[i];
      PakEntriesAreNeverLocal(l, front, i);
    }
  }

  class DirManager {
    var rootPath: string
    var fileListing: Listing

    /** SetRootPath: the lower-cased root, which must name an existing directory. */
    method SetRootPath(path: string, directoryExists: bool) returns (r: Result<()>)
      modifies this
      ensures rootPath == Ascii.LowerString(path) && fileListing == old(fileListing)
      ensures r.Ok? <==> directoryExists
      ensures r.Err? ==> r.error == "directory not found"
    {
      rootPath := Ascii.LowerString(path);
      if !directoryExists {
        return Err("directory not found");
      }
      return Ok(());
    }

    /** Exists: the normalised path is a key of the listing. */
    function Exists(path: string): (b: bool)
      reads this
      ensures b <==> NormalizePath(path) in fileListing
    {
      NormalizePath(path) in fileListing
    }

    /**
     * GenerateFileListing over the files enumerated below the root (`files`, in
     * enumeration order) and the file names of each pak once opened (`pakFiles`).
     */
    method GenerateFileListing(files: seq<string>, pakFiles: string -> seq<string>) returns (r: Result<()>)
      modifies this
      ensures rootPath == old(rootPath)
      ensures AddLocals(rootPath, old(fileListing), files).Err? ==> r == Err(AddLocals(rootPath, old(fileListing), files).error)
      ensures AddLocals(rootPath, old(fileListing), files).Ok? ==>
                var pairs := AllPairs(rootPath, Paks(files), pakFiles);
                (pairs.Err? ==> r == Err(pairs.error))
                && (pairs.Ok? ==> r.Ok? && fileListing == AddPairs(AddLocals(rootPath, old(fileListing), files).value, pairs.value))
    {
      var paksToLoad;
      r, paksToLoad := AddLocalFiles(files);
      if r.Ok? {
        r := AddPakFiles(paksToLoad, pakFiles);
      }
    }

    /** The first loop of GenerateFileListing: local files are added, paks collected. */
    method AddLocalFiles(files: seq<string>) returns (r: Result<()>, paksToLoad: seq<string>)
      modifies this
      ensures rootPath == old(rootPath)
      ensures AddLocals(rootPath, old(fileListing), files).Err? ==> r == Err(AddLocals(rootPath, old(fileListing), files).error)
      ensures AddLocals(rootPath, old(fileListing), files).Ok? ==>
                r.Ok? && fileListing == AddLocals(rootPath, old(fileListing), files).value && paksToLoad == Paks(files)
    {
      var listing;
      r, listing, paksToLoad := LocalsLoop(rootPath, fileListing, files);
      fileListing := listing;
    }

    /**
     * The loop of AddLocalFiles over the listing's value: on a failure the listing holds the
     * files added before it, as the dictionary does when Add throws.
     */
    static method LocalsLoop(root: string, start: Listing, files: seq<string>)
      returns (r: Result<()>, listing: Listing, paksToLoad: seq<string>)
      ensures AddLocals(root, start, files).Err? ==> r == Err(AddLocals(root, start, files).error)
      ensures AddLocals(root, start, files).Ok? ==>
                r.Ok? && listing == AddLocals(root, start, files).value && paksToLoad == Paks(files)
    {
      listing := start;
      paksToLoad := [];
      var i := 0;
      while i < |files|
        invariant 0 <= i <= |files|
        invariant AddLocals(root, start, files[..i]) == Ok(listing)
        invariant paksToLoad == Paks(files[..i])
      {
        LocalStep(root, start, files, i, listing);
        var path := files[i];
        if IsPak(path) {
          paksToLoad := paksToLoad + [path];
          i := i + 1;
          continue;
        }
        var next := AddOneLocal(root, listing, path);
        if next.Err? {
          LocalFailureSticks(root, start, files, i + 1);
          return Err(next.error), listing, paksToLoad;
        }
        listing := next.value;
        i := i + 1;
      }
      assert files[..i] == files;
      r := Ok(());
    }

    /** One file that is not a pak: its relative path is added as local, unless present. */
    static method AddOneLocal(root: string, listing: Listing, path: string) returns (r: Result<Listing>)
      requires !IsPak(path)
      ensures r == AddLocal(root, listing, path)
    {
      var key := GetRelativePath(root, path);
      if key.Err? {
        return Err(key.error);
      }
      if key.value in listing {
        return Err(DuplicateKey);
      }
      r := Ok(listing[key.value := None]);
    }

    /** The second loop of GenerateFileListing: the files of each pak, pak by pak. */
    method AddPakFiles(paks: seq<string>, pakFiles: string -> seq<string>) returns (r: Result<()>)
      modifies this
      ensures rootPath == old(rootPath)
      ensures var pairs := AllPairs(rootPath, paks, pakFiles);
              (pairs.Err? ==> r == Err(pairs.error))
              && (pairs.Ok? ==> r.Ok? && fileListing == AddPairs(old(fileListing), pairs.value))
    {
      ghost var start := fileListing;
      ghost var done: seq<(string, string)> := [];
      var p := 0;
      while p < |paks|
        invariant 0 <= p <= |paks| && rootPath == old(rootPath)
        invariant AllPairs(rootPath, paks[..p], pakFiles) == Ok(done)
        invariant fileListing == AddPairs(start, done)
      {
        assert paks[..p + 1][..p] == paks[..p];
        var pak := paks[p];
        var entries := pakFiles(pak);
        var added := AddOnePak(pak, entries, start, done);
        if added.Err? {
          PakFailureSticks(rootPath, paks, pakFiles, p + 1);
          return Err(added.error);
        }
        done := done + PakPairs(rootPath, pak, entries).value;
        p := p + 1;
      }
      assert paks[..p] == paks;
      return Ok(());
    }

    /** The inner loop: one pak's files. */
    method AddOnePak(pak: string, entries: seq<string>, ghost start: Listing, ghost done: seq<(string, string)>)
      returns (r: Result<()>)
      requires fileListing == AddPairs(start, done)
      modifies this
      ensures rootPath == old(rootPath)
      ensures var pairs := PakPairs(rootPath, pak, entries);
              (pairs.Err? ==> r == Err(pairs.error))
              && (pairs.Ok? ==> r.Ok? && fileListing == AddPairs(start, done + pairs.value))
    {
      ghost var cur: seq<(string, string)> := [];
      assert done + cur == done;
      var j := 0;
      while j < |entries|
        invariant 0 <= j <= |entries| && rootPath == old(rootPath)
        invariant PakPairs(rootPath, pak, entries[..j]) == Ok(cur)
        invariant fileListing == AddPairs(start, done + cur)
      {
        var relativePath := PakKey(rootPath, pak, entries[j]);
        PakPairsStep(rootPath, pak, entries, j, cur);
        if relativePath.Err? {
          EntryFailureSticks(rootPath, pak, entries, j + 1);
          return Err(relativePath.error);
        }
        var key := relativePath.value;
        Put(key, pak);
        ListingStep(start, done, cur, (key, pak));
        cur := cur + [(key, pak)];
        j := j + 1;
      }
      assert entries[..j] == entries;
      return Ok(());
    }

    /** One pak file: a local mapping is replaced by the pak, a pak mapping is kept, a new key added. */
    method Put(key: string, pak: string)
      modifies this
      ensures rootPath == old(rootPath) && fileListing == AddPakEntry(old(fileListing), key, pak)
    {
      if key in fileListing {
        if fileListing[key] == None {
          fileListing := fileListing[key := Some(pak)];
        }
      } else {
        fileListing := fileListing[key := Some(pak)];
      }
    }
  }

  lemma PakPairsStep(root: string, pak: string, entries: seq<string>, j: nat, cur: seq<(string, string)>)
    requires j < |entries| && PakPairs(root, pak, entries[..j]) == Ok(cur)
    ensures var k := PakKey(root, pak, entries[j]);
            (k.Err? ==> PakPairs(root, pak, entries[..j + 1]) == Err(k.error))
            && (k.Ok? ==> PakPairs(root, pak, entries[..j + 1]) == Ok(cur + [(k.value, pak)]))
  {
    assert entries[..j + 1][..j] == entries[..j];
  }

  lemma ListingStep(start: Listing, done: seq<(string, string)>, cur: seq<(string, string)>, q: (string, string))
    ensures AddPairs(start, done + (cur + [q])) == AddPakEntry(AddPairs(start, done + cur), q.0, q.1)
  {
    assert done + (cur + [q]) == (done + cur) + [q];
    AddPairsSnoc(start, done + cur, q);
  }

  lemma AddPairsSnoc(l: Listing, pairs: seq<(string, string)>, q: (string, string))
    ensures AddPairs(l, pairs + [q]) == AddPakEntry(AddPairs(l, pairs), q.0, q.1)
  {
    assert (pairs + [q])[..|pairs|] == pairs;
  }

  /** One turn of the first loop: the prefix grows by one file. */
  lemma LocalStep(root: string, listing: Listing, files: seq<string>, i: nat, cur: Listing)
    requires i < |files| && AddLocals(root, listing, files[..i]) == Ok(cur)
    ensures AddLocals(root, listing, files[..i + 1]) == AddLocal(root, cur, files[i])
    ensures Paks(files[..i + 1]) == if IsPak(files[i]) then Paks(files[..i]) + [files[i]] else Paks(files[..i])
  {
    assert files[..i + 1][..i] == files[..i];
  }

  lemma {:induction false} LocalFailureSticks(root: string, listing: Listing, files: seq<string>, i: nat)
    requires i <= |files| && AddLocals(root, listing, files[..i]).Err?
    ensures AddLocals(root, listing, files) == AddLocals(root, listing, files[..i])
    decreases |files| - i
  {
    if i < |files| {
      assert files[..i + 1][..i] == files[..i];
      LocalFailureSticks(root, listing, files, i + 1);
    } else {
      assert files[..i] == files;
    }
  }

  lemma {:induction false} PakFailureSticks(root: string, paks: seq<string>, pakFiles: string -> seq<string>, i: nat)
    requires i <= |paks| && AllPairs(root, paks[..i], pakFiles).Err?
    ensures AllPairs(root, paks, pakFiles) == AllPairs(root, paks[..i], pakFiles)
    decreases |paks| - i
  {
    if i < |paks| {
      assert paks[..i + 1][..i] == paks[..i];
      PakFailureSticks(root, paks, pakFiles, i + 1);
    } else {
      assert paks[..i] == paks;
    }
  }

  lemma {:induction false} EntryFailureSticks(root: string, pak: string, entries: seq<string>, i: nat)
    requires i <= |entries| && PakPairs(root, pak, entries[..i]).Err?
    ensures PakPairs(root, pak, entries) == PakPairs(root, pak, entries[..i])
    decreases |entries| - i
  {
    if i < |entries| {
      assert entries[..i + 1][..i] == entries[..i];
      EntryFailureSticks(root, pak, entries, i + 1);
    } else {
      assert entries[..i] == entries;
    }
  }
}
