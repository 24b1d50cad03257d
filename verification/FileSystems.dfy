// RealFileSystem and FakeFileSystem as objects, each operation proved against its value-level form.
module FileSystems {
  import opened Wrappers
  import opened FileIds
  import opened Paths
  import opened FileStore

  class RealFileSystem {
    var dirs: Store

    constructor ()
      ensures dirs == map[]
    {
      dirs := map[];
    }

    // Sets the one name if fopen succeeds and no other; the entity exists afterwards either way.
    method WriteFile(e: string, n: string, body: string, opens: bool) returns (ok: bool)
      modifies this
      ensures ok == opens
      ensures if ok then Rewrites(Real(old(dirs)), Real(dirs), e, n, Some(CStr(body)))
              else ReadsSame(Real(old(dirs)), Real(dirs))
      ensures Exists(Real(dirs), e) && OthersStay(Real(old(dirs)), Real(dirs), e)
      ensures (Real(dirs), ok) == FileStore.WriteFile(Real(old(dirs)), e, n, body, opens)
    {
      WriteObserved(Real(dirs), e, n, body, opens);
      if e !in dirs {
        dirs := dirs[e := map[]];
      }
      if opens {
        dirs := dirs[e := dirs[e][n := CStr(body)]];
        return true;
      }
      return false;
    }

    method GenIdAndWriteFile(e: string, body: string, opens: bool) returns (id: int)
      requires InRange(Names(Real(dirs), e))
      modifies this
      ensures id == -1 <==> !opens
      ensures opens ==> id > 0 && IsLargest(Names(Real(old(dirs)), e), id - 1)
      ensures opens ==> Rewrites(Real(old(dirs)), Real(dirs), e, Decimal(id), Some(CStr(body)))
      ensures var (s, r) := FileStore.GenIdAndWriteFile(Real(old(dirs)), e, body, opens);
              Real(dirs) == s && id == if r.Some? then r.value else -1
    {
      MadeNamesSame(Real(dirs), e);
      if e !in dirs {
        dirs := dirs[e := map[]];
      }
      var next := GetUniqueFileName(dirs[e].Keys);
      if opens {
        dirs := dirs[e := dirs[e][Decimal(next) := CStr(body)]];
        return next;
      }
      return -1;
    }

    // Unsets the one name and no other; the entity stays exactly while a file is left in it.
    method Remove(e: string, n: string) returns (ok: bool)
      requires e in dirs
      modifies this
      ensures ok <==> ReadFile(Real(old(dirs)), e, n).Some?
      ensures Rewrites(Real(old(dirs)), Real(dirs), e, n, None)
      ensures Exists(Real(dirs), e) <==> exists n' :: ReadFile(Real(dirs), e, n').Some?
      ensures OthersStay(Real(old(dirs)), Real(dirs), e)
      ensures (Real(dirs), ok) == FileStore.Remove(Real(old(dirs)), e, n)
    {
      RemoveObserved(Real(dirs), e, n);
      ok := n in dirs[e];
      dirs := dirs[e := dirs[e] - {n}];
      if dirs[e] == map[] {
        dirs := dirs - {e};
        assert dirs == old(dirs) - {e};
      }
    }

    method GetFileList(e: string) returns (text: string)
      requires e in dirs
      ensures exists order :: Enumerates(order, Names(Real(dirs), e)) && text == RenderList(order)
    {
      text := "[";
      ghost var order: seq<string> := [];
      assert text == "[" + Listed(order);
      var todo := dirs[e].Keys;
      while todo != {}
        invariant todo <= dirs[e].Keys
        invariant Enumerates(order, dirs[e].Keys - todo)
        invariant text == "[" + Listed(order)
        decreases todo
      {
        var name :| name in todo;
        ListedText(order, name, text);
        text := text + name + ", ";
        order, todo := order + [name], todo - {name};
      }
      text := DropLastTwo(text) + "]";
      assert Enumerates(order, dirs[e].Keys) && text == RenderList(order);
    }
  }

  lemma {:induction false} ListedSnoc(order: seq<string>, name: string)
    ensures Listed(order + [name]) == Listed(order) + name + ", "
  {
    if order == [] {
      assert (order + [name])[1..] == [];
    } else {
      assert (order + [name])[1..] == order[1..] + [name];
      ListedSnoc(order[1..], name);
    }
  }

  lemma ListedText(order: seq<string>, name: string, text: string)
    requires text == "[" + Listed(order)
    ensures text + name + ", " == "[" + Listed(order + [name])
  {
    ListedSnoc(order, name);
    assert "[" + (Listed(order) + name + ", ") == "[" + Listed(order) + name + ", ";
  }

  class FakeFileSystem {
    const data: string
    var ffs: set<string>

    constructor (data: string)
      ensures this.data == data && ffs == {}
    {
      this.data, ffs := data, {};
    }

    // The largest id among the paths directly below the directory, plus one.
    method GetUniqueFileName(e: string) returns (id: nat)
      requires InRange(Names(Fake(data, ffs), e))
      ensures id > 0 && IsLargest(Names(Fake(data, ffs), e), id - 1)
      ensures id == NextId(Fake(data, ffs), e)
    {
      var largestFile := 0;
      var dir := DirPath(data, e);
      var todo := ffs;
      ghost var seen: set<string> := {};
      while todo != {}
        invariant seen + todo == ffs
        invariant LargestBelow(data, seen, e, largestFile)
        decreases todo
      {
        var filePath :| filePath in todo;
        LargestVisited(data, seen, e, filePath, largestFile);
        if filePath != dir && Prefix(filePath) == dir {
          var id := Suffix(filePath);
          if Value(id) > largestFile {
            largestFile := Value(id);
          }
        }
        assert (seen + {filePath}) + (todo - {filePath}) == ffs;
        seen, todo := seen + {filePath}, todo - {filePath};
      }
      assert seen == ffs;
      id := largestFile + 1;
    }

    // Always succeeds; the one name reads as written and no other name or entity changes.
    method WriteFile(e: string, n: string, opens: bool, body: string) returns (ok: bool)
      modifies this
      ensures ok && Rewrites(Fake(data, old(ffs)), Fake(data, ffs), e, n, Some("Read file successfully\n"))
      ensures Exists(Fake(data, ffs), e)
      ensures Slashless(e) && Slashless(n) ==> OthersStay(Fake(data, old(ffs)), Fake(data, ffs), e)
      ensures (Fake(data, ffs), ok) == FileStore.WriteFile(Fake(data, old(ffs)), e, n, body, opens)
    {
      WriteObserved(Fake(data, ffs), e, n, body, opens);
      if DirPath(data, e) !in ffs {
        ffs := ffs + {DirPath(data, e)};
      }
      assert ffs == old(ffs) + {DirPath(data, e)};
      ffs := ffs + {FilePath(data, e, n)};
      return true;
    }

    method GenIdAndWriteFile(e: string, opens: bool, body: string) returns (id: int)
      requires InRange(Names(Fake(data, ffs), e))
      modifies this
      ensures id > 0 && IsLargest(Names(Fake(data, old(ffs)), e), id - 1)
      ensures ffs == old(ffs) + {DirPath(data, e), FilePath(data, e, Decimal(id))}
      ensures var (s, r) := FileStore.GenIdAndWriteFile(Fake(data, old(ffs)), e, body, opens);
              Fake(data, ffs) == s && r == Some(id)
    {
      ghost var made := MakeDirectory(Fake(data, ffs), e);
      assert Names(made, e) == Names(Fake(data, ffs), e);
      if DirPath(data, e) !in ffs {
        ffs := ffs + {DirPath(data, e)};
      }
      assert Fake(data, ffs) == made;
      var next := GetUniqueFileName(e);
      ffs := ffs + {DirPath(data, e) + "/" + Decimal(next)};
      return next;
    }

    // Unsets the one name and no other; the entity stays, with or without files.
    method Remove(e: string, n: string) returns (ok: bool)
      modifies this
      ensures ok <==> ReadFile(Fake(data, old(ffs)), e, n).Some?
      ensures Rewrites(Fake(data, old(ffs)), Fake(data, ffs), e, n, None)
      ensures Slashless(e) && Slashless(n) ==>
                Exists(Fake(data, ffs), e) == Exists(Fake(data, old(ffs)), e)
                && OthersStay(Fake(data, old(ffs)), Fake(data, ffs), e)
      ensures (Fake(data, ffs), ok) == FileStore.Remove(Fake(data, old(ffs)), e, n)
    {
      RemoveObserved(Fake(data, ffs), e, n);
      ok := FilePath(data, e, n) in ffs;
      ffs := ffs - {FilePath(data, e, n)};
    }

    method GetFileList(e: string) returns (text: string)
      ensures exists order :: Enumerates(order, Names(Fake(data, ffs), e)) && text == RenderList(order)
    {
      text := "[";
      ghost var order: seq<string> := [];
      assert text == "[" + Listed(order);
      var dir := DirPath(data, e);
      var todo := ffs;
      ghost var seen: set<string> := {};
      while todo != {}
        invariant seen + todo == ffs && seen !! todo
        invariant ListsBelow(order, data, seen, e)
        invariant text == "[" + Listed(order)
        decreases todo
      {
        var filePath :| filePath in todo;
        ListedVisited(data, seen, e, filePath, order);
        if filePath != dir && Prefix(filePath) == dir {
          var id := Suffix(filePath);
          ListedText(order, id, text);
          text := text + id + ", ";
          order := order + [id];
        }
        assert (seen + {filePath}) + (todo - {filePath}) == ffs;
        seen, todo := seen + {filePath}, todo - {filePath};
      }
      assert seen == ffs;
      text := DropLastTwo(text) + "]";
      assert Enumerates(order, Names(Fake(data, ffs), e)) && text == RenderList(order);
    }
  }

  lemma EnumeratesSnoc(order: seq<string>, names: set<string>, name: string)
    requires Enumerates(order, names) && name !in names
    ensures Enumerates(order + [name], names + {name})
  {
  }

  // The path lies directly below the entity's directory.
  predicate Below(data: string, e: string, path: string) {
    path != DirPath(data, e) && Prefix(path) == DirPath(data, e)
  }

  ghost predicate LargestBelow(data: string, seen: set<string>, e: string, m: nat) {
    IsLargest(Names(Fake(data, seen), e), m)
  }

  ghost predicate ListsBelow(order: seq<string>, data: string, seen: set<string>, e: string) {
    Enumerates(order, Names(Fake(data, seen), e))
  }

  // One more path adds its suffix when it lies directly below the directory.
  lemma NamesAdd(data: string, seen: set<string>, e: string, path: string)
    ensures Names(Fake(data, seen + {path}), e)
         == if Below(data, e, path) then Names(Fake(data, seen), e) + {Suffix(path)} else Names(Fake(data, seen), e)
  {
  }

  lemma LargestVisited(data: string, seen: set<string>, e: string, path: string, m: nat)
    requires LargestBelow(data, seen, e, m)
    ensures LargestBelow(data, seen + {path}, e,
                         if Below(data, e, path) && Value(Suffix(path)) > m then Value(Suffix(path)) else m)
  {
    NamesAdd(data, seen, e, path);
    LargestMore(Names(Fake(data, seen), e), m, Suffix(path));
  }

  lemma ListedVisited(data: string, seen: set<string>, e: string, path: string, order: seq<string>)
    requires ListsBelow(order, data, seen, e) && path !in seen
    ensures ListsBelow(if Below(data, e, path) then order + [Suffix(path)] else order, data, seen + {path}, e)
  {
    NamesAdd(data, seen, e, path);
    if Below(data, e, path) {
      SamePrefixSuffix(data, seen, e, path);
      EnumeratesSnoc(order, Names(Fake(data, seen), e), Suffix(path));
    }
  }

  // A path is its prefix, a slash and its suffix, so the suffix is new if the path is.
  lemma SamePrefixSuffix(data: string, seen: set<string>, e: string, path: string)
    requires path !in seen && path != DirPath(data, e) && Prefix(path) == DirPath(data, e)
    ensures Suffix(path) !in Names(Fake(data, seen), e)
  {
    forall p | p in seen && Prefix(p) == DirPath(data, e) ensures Suffix(p) != Suffix(path) {
      SplitPath(data, e, p);
      SplitPath(data, e, path);
    }
  }

  lemma SplitPath(data: string, e: string, p: string)
    requires Prefix(p) == DirPath(data, e)
    ensures p == DirPath(data, e) + "/" + Suffix(p)
  {
    assert DirPath(data, e)[|data|] == '/';
  }
}
