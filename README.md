# Script Runner: the script collection

Script Runner is a small Kivy app that keeps a list of code snippets
("scripts"), each a record with a `name`, a `code` body and a `language`
tag. The app shows the list as cards and has an editor that creates a script
or changes one. This project models the part of `main.py` that owns that list.

- `Text`: Python's `str.strip()`. The editor applies it to the name and code
  inputs. Whitespace is exactly the set of characters for which `str.isspace()`
  holds.
- `PyList`: the two list methods the app uses, `list.index` and `list.remove`.
  Both look for the first element *equal* to the argument; Python compares
  dicts by value. `None` stands for the `ValueError` they raise when no
  element matches.
- `Card`: the code preview on a script card. It is the first 80 characters of
  the code followed by `...`.
- `Scripts`: the `Script` record, the record `EditorScreen.save` builds from
  its inputs, and the `ScriptStore` class. Its `scripts` field is the app's
  `self.scripts` list. The class has the seed list of `build`, `save`,
  `delete_script` and `load_scripts`.

Widget reads are method parameters: the name text, the code text and the
spinner's language text. The record the editor was opened on
(`EditorScreen.script`) is the `editing` parameter of `Save`. The outcome of
reading `scripts.json` is the `Option` parameter of `LoadScripts`.

The model follows the code:
- Update and delete find their target as the *first value-equal* record, not
  by position or object identity.
- Blank input is ignored silently; no error is signalled.
- A missing record is not reported as "not found". `list.index` or
  `list.remove` raises `ValueError` and the list is left as it was. The model
  returns `NotFound` or `false` for this case.

## Model

| member | source | states |
|---|---|---|
| Text.TrimStart | main.py:99-100 | the result is a suffix of the input, only whitespace was dropped, and it does not start with whitespace |
| Text.TrimEnd | main.py:99-100 | the result is a prefix of the input, only whitespace was dropped, and it does not end with whitespace |
| Text.Strip | main.py:99-100 | `strip()` is empty exactly when the input is all whitespace; otherwise it has no whitespace at either end |
| Text.StripSplits | main.py:99-100 | the input is the stripped string with whitespace-only text added before and after it |
| Text.StripUnique | main.py:99-100 | a clean or empty core with whitespace on both sides strips back to exactly that core, so strip is fully determined |
| Text.StripClean | main.py:99-100 | a text with no whitespace at either end is left unchanged by strip |
| Text.StripIdempotent | main.py:99-100 | stripping twice gives the same result as stripping once |
| PyList.IndexOf | main.py:109 | `list.index` finds an index exactly when the value is in the list; that element equals the value and no earlier one does |
| PyList.Remove | main.py:179 | `list.remove` fails exactly when the value is absent; otherwise the list is one shorter, elements before the first match keep their places, later ones move down by one, and the multiset loses one copy of the value |
| PyList.RemoveAppended | main.py:112 | deleting a record that was just appended, and occurs nowhere else, restores the previous list |
| PyList.RemoveKeeps | main.py:179 | every element left after a removal was in the list before |
| Card.Preview | main.py:30 | the preview is `min(80, length)` characters that are a prefix of the code, then `...`; it is at most 83 characters; a code of at most 80 characters appears in full |
| Card.PreviewIgnoresTail | main.py:30 | codes that agree on their first 80 characters get the same preview |
| Scripts.NewScript | main.py:99-106 | save builds no record exactly when the name or the code is all whitespace; a record it builds has the stripped name and code, which are non-empty with no whitespace at either end, and the language unchanged |
| Scripts.NewScriptOfStored | main.py:98-106 | saving a stored record's own fields, unchanged, builds that same record |
| Scripts.NewScriptStable | main.py:98-106 | building a record again from a built record's fields gives the same record |
| Scripts.ScriptStore.constructor | main.py:157-160 | the collection is exactly `Hello World` then `Test Script`, in that order, both well-formed |
| Scripts.ScriptStore.Save | main.py:98-113 | blank name or code: collection unchanged; new script: the record `NewScript` builds (stripped name and code) appended at the end, earlier records unchanged; edited script: the first record equal to the edited one is overwritten and every other position is unchanged; edited record not present: collection unchanged; well-formedness of all records is preserved |
| Scripts.ScriptStore.Delete | main.py:178-179 | succeeds exactly when the record is present; then the first equal record is removed, earlier records stay in place and later ones move down by one; otherwise nothing changes; well-formedness is preserved |
| Scripts.ScriptStore.LoadScripts | main.py:183-189 | a successful read replaces the collection with what was read; a missing file or any failure leaves it unchanged |

`SeedSurvivesFailedLoad`, `CreateTwo`, `EditFirst` and `DeleteStale` in
`Scripts` are client methods without contracts of their own. Each derives one
usage scenario from the contracts above:
- the seeds survive a failed load;
- two creates on an empty collection append in order;
- editing the first of two records leaves the second as it was;
- deleting a record that is not in the list changes nothing.

## Left out

- Kivy widgets, layout, colours and the labels of a card other than the code
  preview (main.py:12-28, 31-96, 117-153). `show_main`, `show_editor`,
  `edit_script` and `MainScreen.refresh_scripts` only rebuild the screen.
- `save_scripts` (main.py:191-196), called at main.py:114 and main.py:180.
  It is JSON encoding and a file write, and its errors are swallowed by a
  bare `except`; it is left out. `Save` returns `Appended` or `Replaced`,
  and `Delete` returns `true`, exactly when the source goes on to call it.
- Scripts.ScriptStore.LoadScripts: the file check, the read and `json.load`
  are replaced by their abstract result. The source assigns whatever
  `json.load` returns, even JSON that is not a list of script records. The
  `Option<seq<Script>>` parameter cannot represent such a value.
- The `ValueError` of main.py:109 and main.py:179 escapes the button
  callback in the source. The model stops at the unchanged list and the
  `NotFound` / `false` result. What the event loop does with the exception
  is not modelled.
- The "Run" button (main.py:40-41), which only prints.
- The spinner's language list (main.py:73): the code never checks
  `language` against it.
- `if self.script:` (main.py:108) tests dict truthiness. An empty dict is
  falsy, but every record has three keys, so `editing` is `Option<Script>`.
- Python strings are sequences of code points, and so are Dafny strings
  here, except lone surrogates (U+D800 to U+DFFF), which a Dafny string cannot
  hold. `strip()` and `[:80]` therefore work on the same units in both.
