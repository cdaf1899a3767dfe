/**
 * The application's in-memory script collection (`ScriptRunnerApp.scripts`
 * in main.py) and the operations that change it: the seed list of `build`,
 * `EditorScreen.save`, `delete_script` and `load_scripts`.
 */
module Scripts {
  import opened Wrappers
  import opened Text
  import PyList

  /** One record of the collection: the dict `{'name': …, 'code': …, 'language': …}`. */
  datatype Script = Script(name: string, code: string, language: string)

  /** A record as the editor stores it: name and code non-empty and stripped. */
  predicate WellFormed(s: Script)
  {
    Clean(s.name) && Clean(s.code)
  }

  predicate AllWellFormed(scripts: seq<Script>)
  {
    forall i :: 0 <= i < |scripts| ==> WellFormed(scripts[i])
  }

  /**
   * The record `EditorScreen.save` builds from the three inputs, or `None`
   * when the stripped name or code is empty and save returns early.
   */
  function NewScript(nameText: string, codeText: string, language: string): (r: Option<Script>)
    ensures r.None? <==> AllWhitespace(nameText) || AllWhitespace(codeText)
    ensures r.Some? ==> WellFormed(r.value) && r.value.language == language
    ensures r.Some? ==> r.value.name == Strip(nameText) && r.value.code == Strip(codeText)
  {
    var name := Strip(nameText);
    var code := Strip(codeText);
    if name == [] || code == [] then None else Some(Script(name, code, language))
  }

  /** Saving a stored record again without editing it builds the same record. */
  lemma {:induction false} NewScriptOfStored(s: Script)
    requires WellFormed(s)
    ensures NewScript(s.name, s.code, s.language) == Some(s)
  {
    StripClean(s.name);
    StripClean(s.code);
  }

  /** Stripping twice changes nothing: the inputs of a stored record are already stripped. */
  lemma {:induction false} NewScriptStable(nameText: string, codeText: string, language: string)
    ensures var r := NewScript(nameText, codeText, language);
      r.Some? ==> NewScript(r.value.name, r.value.code, r.value.language) == r
  {
    var r := NewScript(nameText, codeText, language);
    if r.Some? {
      NewScriptOfStored(r.value);
    }
  }

  lemma {:induction false} WellFormedAfterUpdate(scripts: seq<Script>, i: nat, s: Script)
    requires i < |scripts| && WellFormed(s)
    ensures AllWellFormed(scripts) ==> AllWellFormed(scripts[i := s])
  {
  }

  lemma {:induction false} WellFormedAfterAppend(scripts: seq<Script>, s: Script)
    requires WellFormed(s)
    ensures AllWellFormed(scripts) ==> AllWellFormed(scripts + [s])
  {
  }

  /** What a call of `EditorScreen.save` did to the collection. */
  datatype SaveOutcome =
    | Ignored            // blank name or code: returned before touching anything
    | Appended           // new script added at the end
    | Replaced(index: nat) // the edited record's first equal element overwritten
    | NotFound           // `list.index` raised ValueError: nothing changed

  class ScriptStore {
    var scripts: seq<Script>

    /** The two seed records `build` starts from, before any file is read. */
    constructor ()
      ensures scripts == [
        Script("Hello World", "print(\"Hello from Script Runner!\")", "python"),
        Script("Test Script", "for i in range(5):\n    print(i)", "python")
      ]
      ensures AllWellFormed(scripts)
    {
      scripts := [
        Script("Hello World", "print(\"Hello from Script Runner!\")", "python"),
        Script("Test Script", "for i in range(5):\n    print(i)", "python")
      ];
    }

    /**
     * `EditorScreen.save` with the widget texts as parameters; `editing` is
     * the record the editor was opened on (`self.script`), if any.
     */
    method Save(nameText: string, codeText: string, language: string, editing: Option<Script>)
      returns (outcome: SaveOutcome)
      modifies this
      ensures outcome.Ignored? <==> NewScript(nameText, codeText, language).None?
      ensures outcome.Appended? <==> NewScript(nameText, codeText, language).Some? && editing.None?
      ensures outcome.NotFound? <==>
        NewScript(nameText, codeText, language).Some? && editing.Some? && editing.value !in old(scripts)
      ensures outcome.Ignored? || outcome.NotFound? ==> scripts == old(scripts)
      ensures outcome.Appended? ==>
        scripts == old(scripts) + [NewScript(nameText, codeText, language).value]
      ensures outcome.Replaced? ==>
        var i := outcome.index;
        editing.Some? && i < |old(scripts)| &&
        old(scripts)[i] == editing.value && (forall j :: 0 <= j < i ==> old(scripts)[j] != editing.value) &&
        scripts == old(scripts)[i := NewScript(nameText, codeText, language).value]
      ensures AllWellFormed(old(scripts)) ==> AllWellFormed(scripts)
    {
      var built := NewScript(nameText, codeText, language);
      if built.None? {
        return Ignored;
      }
      var newScript := built.value;
      if editing.Some? {
        var idx := PyList.IndexOf(scripts, editing.value);
        if idx.None? {
          return NotFound;
        }
        WellFormedAfterUpdate(scripts, idx.value, newScript);
        scripts := scripts[idx.value := newScript];
        outcome := Replaced(idx.value);
      } else {
        WellFormedAfterAppend(scripts, newScript);
        scripts := scripts + [newScript];
        outcome := Appended;
      }
    }

    /** `delete_script`: `list.remove` of the first record equal to `script`. */
    method Delete(script: Script) returns (found: bool)
      modifies this
      ensures found <==> script in old(scripts)
      ensures !found ==> scripts == old(scripts)
      ensures found ==>
        var i := PyList.IndexOf(old(scripts), script).value;
        |scripts| == |old(scripts)| - 1 &&
        scripts[..i] == old(scripts)[..i] && scripts[i..] == old(scripts)[i + 1..]
      ensures AllWellFormed(old(scripts)) ==> AllWellFormed(scripts)
    {
      var rest := PyList.Remove(scripts, script);
      if rest.None? {
        return false;
      }
      forall j | 0 <= j < |rest.value| ensures rest.value[j] in scripts {
        PyList.RemoveKeeps(scripts, script, j);
      }
      scripts := rest.value;
      found := true;
    }

    /**
     * `load_scripts`, with the file read abstracted as its result: `Some`
     * when the file exists and parses, `None` for a missing file or any error.
     */
    method LoadScripts(read: Option<seq<Script>>)
      modifies this
      ensures read.Some? ==> scripts == read.value
      ensures read.None? ==> scripts == old(scripts)
    {
      if read.Some? {
        scripts := read.value;
      }
    }
  }

  /** A missing or unreadable file leaves the two seed records in place, in order. */
  method SeedSurvivesFailedLoad()
  {
    var store := new ScriptStore();
    store.LoadScripts(None);
    assert |store.scripts| == 2;
    assert store.scripts[0].name == "Hello World" && store.scripts[1].name == "Test Script";
  }

  /** Starting from an empty collection, creating two scripts appends them in order. */
  method CreateTwo(store: ScriptStore, hello: Script, greet: Script)
    requires WellFormed(hello) && WellFormed(greet)
    requires store.scripts == []
    modifies store
  {
    NewScriptOfStored(hello);
    NewScriptOfStored(greet);
    var o1 := store.Save(hello.name, hello.code, hello.language, None);
    assert store.scripts == [hello];
    var o2 := store.Save(greet.name, greet.code, greet.language, None);
    assert store.scripts == [hello, greet];
  }

  /** Editing the first of two scripts replaces it and leaves the second untouched. */
  method EditFirst(store: ScriptStore, hello: Script, greet: Script, hi: Script)
    requires WellFormed(hi)
    requires store.scripts == [hello, greet]
    modifies store
  {
    NewScriptOfStored(hi);
    assert store.scripts[0] == hello;
    var o := store.Save(hi.name, hi.code, hi.language, Some(hello));
    assert o == Replaced(0);
    assert store.scripts == [hi, greet];
  }

  /** Deleting a record that is no longer in the collection changes nothing. */
  method DeleteStale()
  {
    var store := new ScriptStore();
    var greet := Script("Greet", "console.log(1)", "javascript");
    assert greet.name[0] != store.scripts[0].name[0] && greet.name[0] != store.scripts[1].name[0];
    var before := store.scripts;
    var found := store.Delete(greet);
    assert !found && store.scripts == before;
  }
}
