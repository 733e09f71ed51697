/// The level-folder index read from worldid.xml: level id to folder name and back.
module WorldIdXmlLoader {
  import opened Outcome
  import Ascii

  /** One `data` element: its `id` attribute (None when absent) and its text. */
  datatype Entry = Entry(id: Option<string>, value: string)

  const EmptyLevelName := "worldid.xml contains data entry with empty level name"
  const DuplicateLevel := "worldid.xml contains duplicate level: "

  /** String.IsNullOrWhiteSpace. */
  predicate Blank(s: string)
  {
    forall i :: 0 <= i < |s| ==> Ascii.IsWhiteSpace(s[i])
  }

  function Values(entries: seq<Entry>): (vs: set<string>)
    ensures forall k :: 0 <= k < |entries| ==> entries[k].value in vs
    ensures forall v :: v in vs ==> exists k :: 0 <= k < |entries| && entries[k].value == v
    decreases |entries|
  {
    if entries == [] then {}
    else Values(entries[..|entries| - 1]) + {entries[|entries| - 1].value}
  }

  /**
   * The first loop: entries in document order; a blank name, then a name seen before,
   * then a missing id attribute throws; otherwise the id maps to the name, the later
   * entry winning.
   */
  function Validated(entries: seq<Entry>): Result<map<string, string>>
    decreases |entries|
  {
    if entries == [] then Ok(map[])
    else
      var front := entries[..|entries| - 1];
      var x := entries[|entries| - 1];
      match Validated(front)
      case Err(e) => Err(e)
      case Ok(folders) =>
        if Blank(x.value) then Err(EmptyLevelName)
        else if x.value in Values(front) then Err(DuplicateLevel + x.value)
        else if x.id.None? then Err(NullReference)
        else Ok(folders[x.id.value := x.value])
  }

  /** Every name is non-blank, no name occurs twice, every entry has an id. */
  predicate WellFormed(entries: seq<Entry>)
  {
    (forall k :: 0 <= k < |entries| ==> !Blank(entries[k].value) && entries[k].id.Some?)
    && forall j, k :: 0 <= j < k < |entries| ==> entries[j].value != entries[k].value
  }

  /** The name the last entry with this id carries. */
  predicate LastWith(entries: seq<Entry>, id: string, name: string)
  {
    exists k :: 0 <= k < |entries| && entries[k] == Entry(Some(id), name)
                && forall j :: k < j < |entries| ==> entries[j].id != Some(id)
  }

  /** The first loop succeeds exactly on well-formed entries. */
  lemma {:induction false} ValidatedOkIffWellFormed(entries: seq<Entry>)
    ensures Validated(entries).Ok? <==> WellFormed(entries)
    decreases |entries|
  {
    if entries != [] {
      ValidatedOkIffWellFormed(entries[..|entries| - 1]);
      WellFormedSnoc(entries);
    }
  }

  /** Entries are well formed when all but the last are and the last passes the three checks. */
  lemma WellFormedSnoc(entries: seq<Entry>)
    requires entries != []
    ensures var front, x := entries[..|entries| - 1], entries[|entries| - 1];
            WellFormed(entries) <==>
              WellFormed(front) && !Blank(x.value) && x.id.Some? && x.value !in Values(front)
  {
    var n := |entries| - 1;
    var front, x := entries[..n], entries[n];
    assert forall k :: 0 <= k < n ==> front[k] == entries[k];
    if WellFormed(entries) {
      assert WellFormed(front);
      assert x.value !in Values(front);
    }
  }

  /** On success the first loop maps each id that occurs to the name of its last entry. */
  lemma {:induction false} ValidatedIsLastWins(entries: seq<Entry>)
    requires Validated(entries).Ok?
    ensures var folders := Validated(entries).value;
            forall id :: id in folders ==> LastWith(entries, id, folders[id])
    decreases |entries|
  {
    if entries != [] {
      var front := entries[..|entries| - 1];
      var x := entries[|entries| - 1];
      ValidatedIsLastWins(front);
      var folders := Validated(entries).value;
      forall id | id in folders
        ensures LastWith(entries, id, folders[id])
      {
        if Some(id) == x.id {
          LastEntryIsLast(entries, id);
        } else {
          LaterEntryKeepsLast(entries, id, folders[id]);
        }
      }
    }
  }

  lemma LastEntryIsLast(entries: seq<Entry>, id: string)
    requires entries != [] && entries[|entries| - 1].id == Some(id)
    ensures LastWith(entries, id, entries[|entries| - 1].value)
  {
    assert entries[|entries| - 1] == Entry(Some(id), entries[|entries| - 1].value);
  }

  lemma LaterEntryKeepsLast(entries: seq<Entry>, id: string, name: string)
    requires entries != [] && entries[|entries| - 1].id != Some(id)
    requires LastWith(entries[..|entries| - 1], id, name)
    ensures LastWith(entries, id, name)
  {
    var front := entries[..|entries| - 1];
    var k :| 0 <= k < |front| && front[k] == Entry(Some(id), name)
             && forall j :: k < j < |front| ==> front[j].id != Some(id);
    assert entries[k] == front[k];
    assert forall j :: k < j < |entries| ==> entries[j].id != Some(id) by {
      forall j | k < j < |entries|
        ensures entries[j].id != Some(id)
      {
        if j < |front| {
          assert entries[j] == front[j];
        }
      }
    }
  }

  /** On success every entry's id is a key of the map. */
  lemma {:induction false} ValidatedHasEveryId(entries: seq<Entry>)
    requires Validated(entries).Ok?
    ensures forall k :: 0 <= k < |entries| ==> entries[k].id.Some? && entries[k].id.value in Validated(entries).value
    decreases |entries|
  {
    if entries != [] {
      var front := entries[..|entries| - 1];
      ValidatedHasEveryId(front);
      assert forall k :: 0 <= k < |front| ==> front[k] == entries[k];
    }
  }

  /** Once a prefix fails, the whole list fails with the same exception. */
  lemma {:induction false} FailureSticks(entries: seq<Entry>, i: nat)
    requires i <= |entries| && Validated(entries[..i]).Err?
    ensures Validated(entries) == Validated(entries[..i])
    decreases |entries| - i
  {
    if i < |entries| {
      assert entries[..i + 1][..i] == entries[..i];
      FailureSticks(entries, i + 1);
    } else {
      assert entries[..i] == entries;
    }
  }

  /** No two ids name folders that are equal once lower-cased. */
  predicate CaseDistinct(folders: map<string, string>)
  {
    forall a, b :: a in folders && b in folders && a != b ==>
      Ascii.LowerString(folders[a]) != Ascii.LowerString(folders[b])
  }

  /** The reverse map: each lower-cased folder name to its id. */
  predicate Reverses(ids: map<string, string>, folders: map<string, string>)
  {
    (forall a :: a in folders ==> Ascii.LowerString(folders[a]) in ids && ids[Ascii.LowerString(folders[a])] == a)
    && forall n :: n in ids ==> ids[n] in folders && Ascii.LowerString(folders[ids[n]]) == n
  }

  /** A lower-cased name holds no ASCII capital. */
  predicate LowerCase(s: string)
  {
    forall i :: 0 <= i < |s| ==> !Ascii.IsUpper(s[i])
  }

  class WorldIdXmlLoader {
    var folderNamesById: map<string, string>
    var idsByFolderName: map<string, string>

    /**
     * Load: the validating loop, then IdsByFolderName.Add of every lower-cased name,
     * which throws on a second name equal up to case.
     */
    method Load(entries: seq<Entry>) returns (r: Result<()>)
      modifies this
      ensures Validated(entries).Err? ==> r == Err(Validated(entries).error)
      ensures Validated(entries).Ok? ==> folderNamesById == Validated(entries).value
      ensures Validated(entries).Ok? ==> (r.Ok? <==> CaseDistinct(folderNamesById))
      ensures Validated(entries).Ok? ==> r.Err? ==> r.error == DuplicateKey
      ensures r.Ok? ==> Reverses(idsByFolderName, folderNamesById)
    {
      var hash: set<string> := {};
      folderNamesById := map[];
      var i := 0;
      while i < |entries|
        invariant 0 <= i <= |entries|
        invariant Validated(entries[..i]) == Ok(folderNamesById) && hash == Values(entries[..i])
      {
        var node := entries[i];
        assert entries[..i + 1][..i] == entries[..i];
        if Blank(node.value) {
          FailureSticks(entries, i + 1);
          return Err(EmptyLevelName);
        }
        if node.value in hash {
          FailureSticks(entries, i + 1);
          return Err(DuplicateLevel + node.value);
        }
        hash := hash + {node.value};
        if node.id.None? {
          FailureSticks(entries, i + 1);
          return Err(NullReference);
        }
        folderNamesById := folderNamesById[node.id.value := node.value];
        i := i + 1;
      }
      assert entries[..i] == entries;
      r := BuildReverse();
    }

    /** The second loop of Load over the ids of FolderNamesById. */
    method BuildReverse() returns (r: Result<()>)
      modifies this
      ensures folderNamesById == old(folderNamesById)
      ensures r.Ok? <==> CaseDistinct(folderNamesById)
      ensures r.Err? ==> r.error == DuplicateKey
      ensures r.Ok? ==> Reverses(idsByFolderName, folderNamesById)
    {
      var folders := folderNamesById;
      idsByFolderName := map[];
      var todo := folders.Keys;
      while todo != {}
        invariant todo <= folders.Keys && folderNamesById == folders
        invariant CaseDistinctOn(folders, folders.Keys - todo)
        invariant forall a :: a in folders.Keys - todo ==>
                    Ascii.LowerString(folders[a]) in idsByFolderName && idsByFolderName[Ascii.LowerString(folders[a])] == a
        invariant forall n :: n in idsByFolderName ==>
                    idsByFolderName[n] in folders.Keys - todo && Ascii.LowerString(folders[idsByFolderName[n]]) == n
        decreases todo
      {
        var id :| id in todo;
        var name := Ascii.LowerString(folders[id]);
        if name in idsByFolderName {
          assert !CaseDistinct(folders) by {
            var other := idsByFolderName[name];
            assert other != id && other in folders;
          }
          return Err(DuplicateKey);
        }
        idsByFolderName := idsByFolderName[name := id];
        todo := todo - {id};
      }
      assert folders.Keys - todo == folders.Keys;
      return Ok(());
    }

    /** GetLevelId: the dictionary lookup, with the argument taken as given (not lower-cased). */
    function GetLevelId(folderName: string): (r: Result<string>)
      reads this
      ensures r.Ok? <==> folderName in idsByFolderName
      ensures r.Ok? ==> r.value == idsByFolderName[folderName]
      ensures r.Err? ==> r.error == KeyNotFound
    {
      if folderName in idsByFolderName then Ok(idsByFolderName[folderName]) else Err(KeyNotFound)
    }
  }

  /** CaseDistinct on the ids in `done`. */
  predicate CaseDistinctOn(folders: map<string, string>, done: set<string>)
  {
    forall a, b :: a in done && b in done && a in folders && b in folders && a != b ==>
      Ascii.LowerString(folders[a]) != Ascii.LowerString(folders[b])
  }

  /** After a successful load every key of the reverse map is lower case, so a name with a capital is never found. */
  lemma CapitalNeverFound(ids: map<string, string>, folders: map<string, string>, folderName: string, i: nat)
    requires Reverses(ids, folders)
    requires i < |folderName| && Ascii.IsUpper(folderName[i])
    ensures folderName !in ids
  {
  }

  /** Names differing only in case pass the duplicate check, then the reverse map throws. */
  lemma CaseOnlyDuplicateThrowsLater()
    ensures var entries := [Entry(Some("1"), "Abc"), Entry(Some("2"), "abc")];
            Validated(entries) == Ok(map["1" := "Abc", "2" := "abc"])
            && !CaseDistinct(Validated(entries).value)
  {
    var entries := [Entry(Some("1"), "Abc"), Entry(Some("2"), "abc")];
    assert entries[..1] == [Entry(Some("1"), "Abc")];
    assert [Entry(Some("1"), "Abc")][..0] == [];
    assert !Blank("Abc") by { assert !Ascii.IsWhiteSpace("Abc"[0]); }
    assert !Blank("abc") by { assert !Ascii.IsWhiteSpace("abc"[0]); }
    assert Values(entries[..1]) == {"Abc"};
    assert "abc" != "Abc" by { assert "abc"[0] != "Abc"[0]; }
    var folders := map["1" := "Abc", "2" := "abc"];
    assert Ascii.LowerString(folders["1"]) == Ascii.LowerString(folders["2"]);
  }
}
