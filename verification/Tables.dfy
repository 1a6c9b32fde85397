/** The descriptor pool's tables, updated in place. */
module PoolTables {
  import opened Descriptors
  import opened TablesSpec
  import opened Wrappers

  /** The tables without their memory: symbols, files, the block of each file, extension numbers. */
  datatype Core = Core(
    symbols: map<string, Symbol>,
    files: map<string, FileProto>,
    ranks: map<string, Pointer>,
    extensions: set<ExtensionKey>)

  /** What a builder can see: the tables and the strings and blocks that are owned. */
  datatype View = View(core: Core, cells: set<Cell>, blocks: set<Pointer>)

  ghost function CoreOf(c: Contents): Core {
    Core(map n | n in c.symbols :: c.symbols[n].item,
         map n | n in c.files :: c.files[n].item,
         map n | n in c.files :: c.files[n].at,
         c.extensions.Keys)
  }

  ghost function ViewOf(c: Contents): View {
    View(CoreOf(c), Elements(c.strings), Elements(c.allocations))
  }

  ghost function WithSymbol(v: View, name: string, symbol: Symbol): View {
    v.(core := v.core.(symbols := v.core.symbols[name := symbol]))
  }

  ghost function WithFile(v: View, name: string, file: FileProto, at: Pointer): View {
    v.(core := v.core.(files := v.core.files[name := file], ranks := v.core.ranks[name := at]))
  }

  ghost function WithExtension(v: View, key: ExtensionKey): View {
    v.(core := v.core.(extensions := v.core.extensions + {key}))
  }

  lemma ViewAfterAddSymbol(s: State, name: string, e: Entry<Symbol>)
    requires name !in s.now.symbols
    ensures ViewOf(TablesSpec.AddSymbol(s, name, e).now) == WithSymbol(ViewOf(s.now), name, e.item)
  {
  }

  lemma ViewAfterAddFile(s: State, name: string, e: Entry<FileProto>)
    requires name !in s.now.files
    ensures ViewOf(TablesSpec.AddFile(s, name, e).now) == WithFile(ViewOf(s.now), name, e.item, e.at)
  {
  }

  lemma ViewAfterAllocateString(s: State, value: string)
    ensures ViewOf(TablesSpec.AllocateString(s, value).now) ==
            ViewOf(s.now).(cells := ViewOf(s.now).cells + {Cell(s.next, value)})
  {
  }

  lemma ViewAfterAllocateBytes(s: State, size: nat)
    ensures ViewOf(TablesSpec.AllocateBytes(s, size).now) ==
            if size == 0 then ViewOf(s.now) else ViewOf(s.now).(blocks := ViewOf(s.now).blocks + {s.next})
  {
  }

  lemma RanksBelowNext(s: State, saved: seq<Contents>)
    requires Sound(s, saved)
    ensures forall f | f in ViewOf(s.now).core.ranks :: ViewOf(s.now).core.ranks[f] < s.next
  {
  }

  lemma StepAfterRollback(s: State, saved: seq<Contents>) returns (t: State)
    requires Sound(s, saved) && saved != []
    ensures CanStep(s, RollbackTop) && t == TablesSpec.RollbackToLastCheckpoint(s)
    ensures Sound(t, saved[..|saved| - 1]) && t.now == saved[|saved| - 1]
  {
    StepSound(s, saved, RollbackTop);
    t := TablesSpec.RollbackToLastCheckpoint(s);
  }

  lemma StepAfterClear(s: State, saved: seq<Contents>)
    requires Sound(s, saved) && saved != []
    ensures s.checkpoints != []
    ensures Sound(TablesSpec.ClearLastCheckpoint(s), saved[..|saved| - 1])
  {
    StepSound(s, saved, ClearTop);
  }

  class Tables {
    var pendingFiles: seq<string>
    var knownBadFiles: set<string>
    var strings: seq<Cell>
    var messages: seq<Pointer>
    var fileTables: seq<Pointer>
    var allocations: seq<Pointer>
    var symbolsByName: map<string, Entry<Symbol>>
    var filesByName: map<string, Entry<FileProto>>
    var extensions: map<ExtensionKey, Pointer>
    var checkpoints: seq<CheckPoint>
    var symbolsAfterCheckpoint: seq<string>
    var filesAfterCheckpoint: seq<string>
    var extensionsAfterCheckpoint: seq<ExtensionKey>
    var nextBlock: Pointer
    /** The contents each checkpoint on the stack must bring back. */
    ghost var saved: seq<Contents>

    ghost function Now(): Contents
      reads this
    {
      Contents(symbolsByName, filesByName, extensions, strings, messages, fileTables, allocations)
    }

    ghost function View(): View
      reads this
    {
      ViewOf(Now())
    }

    /** The view is that of the contents; every file has a block. */
    lemma ViewFacts()
      ensures View() == ViewOf(Now())
      ensures View().core.ranks.Keys == View().core.files.Keys
    {
    }

    ghost function Abstract(): State
      reads this
    {
      State(Now(), checkpoints, symbolsAfterCheckpoint, filesAfterCheckpoint, extensionsAfterCheckpoint, nextBlock)
    }

    ghost predicate Valid()
      reads this
    {
      Sound(Abstract(), saved)
    }

    constructor ()
      ensures Valid() && Abstract() == EMPTY_STATE && saved == []
      ensures pendingFiles == [] && knownBadFiles == {}
    {
      pendingFiles, knownBadFiles := [], {};
      strings, messages, fileTables, allocations := [], [], [], [];
      symbolsByName, filesByName, extensions := map[], map[], map[];
      checkpoints, symbolsAfterCheckpoint, filesAfterCheckpoint, extensionsAfterCheckpoint := [], [], [], [];
      nextBlock, saved := 0, [];
    }

    method PushPending(name: string)
      requires Valid()
      modifies this`pendingFiles
      ensures Valid() && pendingFiles == old(pendingFiles) + [name]
      ensures Now() == old(Now()) && View() == old(View())
    {
      pendingFiles := pendingFiles + [name];
    }

    method PopPending()
      requires Valid() && pendingFiles != []
      modifies this`pendingFiles
      ensures Valid() && pendingFiles == old(pendingFiles)[..|old(pendingFiles)| - 1]
      ensures Now() == old(Now()) && View() == old(View())
    {
      pendingFiles := pendingFiles[..|pendingFiles| - 1];
    }

    method MarkBad(name: string)
      requires Valid()
      modifies this`knownBadFiles
      ensures Valid() && knownBadFiles == old(knownBadFiles) + {name}
      ensures Now() == old(Now()) && View() == old(View())
    {
      knownBadFiles := knownBadFiles + {name};
    }

    method AddCheckpoint()
      requires Valid()
      modifies this
      ensures Valid() && Abstract() == TablesSpec.AddCheckpoint(old(Abstract()))
      ensures saved == old(saved) + [old(Now())]
      ensures View() == old(View())
      ensures pendingFiles == old(pendingFiles) && knownBadFiles == old(knownBadFiles)
    {
      StepSound(Abstract(), saved, PushCheckpoint);
      saved := saved + [Now()];
      checkpoints := checkpoints + [
        CheckPoint(|strings|, |messages|, |fileTables|, |allocations|,
                   |symbolsAfterCheckpoint|, |filesAfterCheckpoint|, |extensionsAfterCheckpoint|)];
    }

    method ClearLastCheckpoint()
      requires Valid() && saved != []
      modifies this
      ensures Valid() && old(checkpoints) != [] && Abstract() == TablesSpec.ClearLastCheckpoint(old(Abstract()))
      ensures saved == old(saved)[..|old(saved)| - 1]
      ensures View() == old(View())
      ensures pendingFiles == old(pendingFiles) && knownBadFiles == old(knownBadFiles)
    {
      hide Sound, ViewOf;
      StepAfterClear(Abstract(), saved);
      saved := saved[..|saved| - 1];
      checkpoints := checkpoints[..|checkpoints| - 1];
      if checkpoints == [] {
        symbolsAfterCheckpoint := [];
        filesAfterCheckpoint := [];
        extensionsAfterCheckpoint := [];
      }
    }

    /** Erases what was added since the last checkpoint and frees what was allocated since. */
    method RollbackToLastCheckpoint()
      requires Valid() && saved != []
      modifies this
      ensures Valid() && Now() == old(saved)[|old(saved)| - 1]
      ensures old(CanStep(Abstract(), RollbackTop))
      ensures Abstract() == TablesSpec.RollbackToLastCheckpoint(old(Abstract()))
      ensures saved == old(saved)[..|old(saved)| - 1]
      ensures View() == ViewOf(old(saved)[|old(saved)| - 1])
      ensures pendingFiles == old(pendingFiles) && knownBadFiles == old(knownBadFiles)
    {
      ghost var after := StepAfterRollback(Abstract(), saved);
      Undo();
      saved := saved[..|saved| - 1];
    }

    method Undo()
      requires checkpoints != [] && InRange(Abstract(), checkpoints[|checkpoints| - 1])
      modifies this
      ensures Abstract() == TablesSpec.RollbackToLastCheckpoint(old(Abstract()))
      ensures saved == old(saved)
      ensures pendingFiles == old(pendingFiles) && knownBadFiles == old(knownBadFiles)
    {
      hide Sound, View, ViewOf, Elements, Owned, Consistent, CanStep, Valid;
      var checkpoint := checkpoints[|checkpoints| - 1];
      EraseFrom(checkpoint);
      Truncate(checkpoint);
      checkpoints := checkpoints[..|checkpoints| - 1];
    }

    method EraseFrom(checkpoint: CheckPoint)
      requires checkpoint.symbols <= |symbolsAfterCheckpoint| && checkpoint.files <= |filesAfterCheckpoint|
      requires checkpoint.extensions <= |extensionsAfterCheckpoint|
      modifies this`symbolsByName, this`filesByName, this`extensions
      ensures symbolsByName == old(symbolsByName) - Elements(symbolsAfterCheckpoint[checkpoint.symbols..])
      ensures filesByName == old(filesByName) - Elements(filesAfterCheckpoint[checkpoint.files..])
      ensures extensions == old(extensions) - Elements(extensionsAfterCheckpoint[checkpoint.extensions..])
    {
      EraseSymbols(checkpoint.symbols);
      EraseFiles(checkpoint.files);
      EraseExtensions(checkpoint.extensions);
    }

    method Truncate(checkpoint: CheckPoint)
      requires checkpoint.symbols <= |symbolsAfterCheckpoint| && checkpoint.files <= |filesAfterCheckpoint|
      requires checkpoint.extensions <= |extensionsAfterCheckpoint|
      requires checkpoint.strings <= |strings| && checkpoint.messages <= |messages|
      requires checkpoint.fileTables <= |fileTables| && checkpoint.allocations <= |allocations|
      modifies this`symbolsAfterCheckpoint, this`filesAfterCheckpoint, this`extensionsAfterCheckpoint
      modifies this`strings, this`messages, this`fileTables, this`allocations
      ensures symbolsAfterCheckpoint == old(symbolsAfterCheckpoint)[..checkpoint.symbols]
      ensures filesAfterCheckpoint == old(filesAfterCheckpoint)[..checkpoint.files]
      ensures extensionsAfterCheckpoint == old(extensionsAfterCheckpoint)[..checkpoint.extensions]
      ensures strings == old(strings)[..checkpoint.strings]
      ensures messages == old(messages)[..checkpoint.messages]
      ensures fileTables == old(fileTables)[..checkpoint.fileTables]
      ensures allocations == old(allocations)[..checkpoint.allocations]
    {
      symbolsAfterCheckpoint := symbolsAfterCheckpoint[..checkpoint.symbols];
      filesAfterCheckpoint := filesAfterCheckpoint[..checkpoint.files];
      extensionsAfterCheckpoint := extensionsAfterCheckpoint[..checkpoint.extensions];
      strings := strings[..checkpoint.strings];
      messages := messages[..checkpoint.messages];
      fileTables := fileTables[..checkpoint.fileTables];
      allocations := allocations[..checkpoint.allocations];
    }

    method EraseSymbols(start: nat)
      requires start <= |symbolsAfterCheckpoint|
      modifies this`symbolsByName
      ensures symbolsByName == old(symbolsByName) - Elements(symbolsAfterCheckpoint[start..])
    {
      var i := start;
      assert symbolsAfterCheckpoint[start..i] == [];
      while i < |symbolsAfterCheckpoint|
        invariant start <= i <= |symbolsAfterCheckpoint|
        invariant symbolsByName == old(symbolsByName) - Elements(symbolsAfterCheckpoint[start..i])
      {
        assert symbolsAfterCheckpoint[start..i + 1] == symbolsAfterCheckpoint[start..i] + [symbolsAfterCheckpoint[i]];
        symbolsByName := symbolsByName - {symbolsAfterCheckpoint[i]};
        i := i + 1;
      }
    }

    method EraseFiles(start: nat)
      requires start <= |filesAfterCheckpoint|
      modifies this`filesByName
      ensures filesByName == old(filesByName) - Elements(filesAfterCheckpoint[start..])
    {
      var i := start;
      assert filesAfterCheckpoint[start..i] == [];
      while i < |filesAfterCheckpoint|
        invariant start <= i <= |filesAfterCheckpoint|
        invariant filesByName == old(filesByName) - Elements(filesAfterCheckpoint[start..i])
      {
        assert filesAfterCheckpoint[start..i + 1] == filesAfterCheckpoint[start..i] + [filesAfterCheckpoint[i]];
        filesByName := filesByName - {filesAfterCheckpoint[i]};
        i := i + 1;
      }
    }

    method EraseExtensions(start: nat)
      requires start <= |extensionsAfterCheckpoint|
      modifies this`extensions
      ensures extensions == old(extensions) - Elements(extensionsAfterCheckpoint[start..])
    {
      var i := start;
      assert extensionsAfterCheckpoint[start..i] == [];
      while i < |extensionsAfterCheckpoint|
        invariant start <= i <= |extensionsAfterCheckpoint|
        invariant extensions == old(extensions) - Elements(extensionsAfterCheckpoint[start..i])
      {
        assert extensionsAfterCheckpoint[start..i + 1]
          == extensionsAfterCheckpoint[start..i] + [extensionsAfterCheckpoint[i]];
        extensions := extensions - {extensionsAfterCheckpoint[i]};
        i := i + 1;
      }
    }

    /** The key must have been allocated by AllocateString, and the entity allocated, before the call. */
    method AddSymbol(fullName: Cell, symbol: Symbol, at: Pointer) returns (added: bool)
      requires Valid() && fullName in View().cells && at in View().blocks
      modifies this
      ensures Valid() && Abstract()
              == TablesSpec.AddSymbol(old(Abstract()), fullName.value, Entry(symbol, fullName, at))
      ensures added == (fullName.value !in old(View().core.symbols))
      ensures saved == old(saved)
      ensures View() == if added then WithSymbol(old(View()), fullName.value, symbol) else old(View())
      ensures pendingFiles == old(pendingFiles) && knownBadFiles == old(knownBadFiles)
    {
      StepSound(Abstract(), saved, InsertSymbol(fullName.value, Entry(symbol, fullName, at)));
      if fullName.value !in symbolsByName {
        ViewAfterAddSymbol(Abstract(), fullName.value, Entry(symbol, fullName, at));
        symbolsByName := symbolsByName[fullName.value := Entry(symbol, fullName, at)];
        symbolsAfterCheckpoint := symbolsAfterCheckpoint + [fullName.value];
        return true;
      } else {
        return false;
      }
    }

    method AddFile(name: Cell, file: FileProto, at: Pointer) returns (added: bool)
      requires Valid() && name in View().cells && at in View().blocks
      modifies this
      ensures Valid() && Abstract() == TablesSpec.AddFile(old(Abstract()), name.value, Entry(file, name, at))
      ensures added == (name.value !in old(View().core.files))
      ensures saved == old(saved)
      ensures View() == if added then WithFile(old(View()), name.value, file, at) else old(View())
      ensures pendingFiles == old(pendingFiles) && knownBadFiles == old(knownBadFiles)
    {
      StepSound(Abstract(), saved, InsertFile(name.value, Entry(file, name, at)));
      if name.value !in filesByName {
        ViewAfterAddFile(Abstract(), name.value, Entry(file, name, at));
        filesByName := filesByName[name.value := Entry(file, name, at)];
        filesAfterCheckpoint := filesAfterCheckpoint + [name.value];
        return true;
      } else {
        return false;
      }
    }

    method AddExtension(key: ExtensionKey, at: Pointer) returns (added: bool)
      requires Valid() && at in View().blocks
      modifies this
      ensures Valid() && Abstract() == TablesSpec.AddExtension(old(Abstract()), key, at)
      ensures added == (key !in old(extensions))
      ensures saved == old(saved)
      ensures View() == WithExtension(old(View()), key)
      ensures pendingFiles == old(pendingFiles) && knownBadFiles == old(knownBadFiles)
    {
      StepSound(Abstract(), saved, InsertExtension(key, at));
      if key !in extensions {
        extensions := extensions[key := at];
        extensionsAfterCheckpoint := extensionsAfterCheckpoint + [key];
        return true;
      } else {
        return false;
      }
    }

    method AllocateString(value: string) returns (cell: Cell)
      requires Valid()
      modifies this
      ensures Valid() && Abstract() == TablesSpec.AllocateString(old(Abstract()), value)
      ensures cell.value == value && strings == old(strings) + [cell]
      ensures saved == old(saved)
      ensures View() == old(View()).(cells := old(View()).cells + {cell})
      ensures pendingFiles == old(pendingFiles) && knownBadFiles == old(knownBadFiles)
    {
      StepSound(Abstract(), saved, NewString(value));
      ViewAfterAllocateString(Abstract(), value);
      cell := Cell(nextBlock, value);
      nextBlock := nextBlock + 1;
      strings := strings + [cell];
    }

    method AllocateFileTables()
      requires Valid()
      modifies this
      ensures Valid() && Abstract() == TablesSpec.AllocateFileTables(old(Abstract()))
      ensures saved == old(saved)
      ensures View() == old(View())
      ensures pendingFiles == old(pendingFiles) && knownBadFiles == old(knownBadFiles)
    {
      StepSound(Abstract(), saved, NewFileTables);
      fileTables := fileTables + [nextBlock];
      nextBlock := nextBlock + 1;
    }

    method AllocateMessage()
      requires Valid()
      modifies this
      ensures Valid() && Abstract() == TablesSpec.AllocateMessage(old(Abstract()))
      ensures saved == old(saved)
      ensures View() == old(View())
      ensures pendingFiles == old(pendingFiles) && knownBadFiles == old(knownBadFiles)
    {
      StepSound(Abstract(), saved, NewMessage);
      messages := messages + [nextBlock];
      nextBlock := nextBlock + 1;
    }

    function FindSymbol(name: string): (r: Option<Symbol>)
      reads this
      ensures r == if name in View().core.symbols then Some(View().core.symbols[name]) else None
    {
      if name in symbolsByName then Some(symbolsByName[name].item) else None
    }

    function FindFile(name: string): (r: Option<FileProto>)
      reads this
      ensures r == if name in View().core.files then Some(View().core.files[name]) else None
    {
      if name in filesByName then Some(filesByName[name].item) else None
    }

    /** A block of `size` bytes; no block at all for size 0. */
    method AllocateBytes(size: nat) returns (at: Pointer)
      requires Valid()
      modifies this
      ensures Valid() && Abstract() == TablesSpec.AllocateBytes(old(Abstract()), size)
      ensures size > 0 ==> at == old(nextBlock) && allocations == old(allocations) + [at]
      ensures saved == old(saved)
      ensures View() == if size == 0 then old(View()) else old(View()).(blocks := old(View()).blocks + {at})
      ensures forall f | f in old(View()).core.ranks :: old(View()).core.ranks[f] < at
      ensures pendingFiles == old(pendingFiles) && knownBadFiles == old(knownBadFiles)
    {
      hide Sound, ViewOf;
      StepSound(Abstract(), saved, NewBytes(size));
      ViewAfterAllocateBytes(Abstract(), size);
      RanksBelowNext(Abstract(), saved);
      at := nextBlock;
      if size != 0 {
        nextBlock := nextBlock + 1;
        allocations := allocations + [at];
      }
    }
  }
}
