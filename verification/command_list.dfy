/**
  The three edits the main window makes to its command list: add, edit and
  remove. Dialog and message-box answers are plain inputs; a selection is the
  list widget's current row, with -1 meaning that no row is selected.
 */
module CommandList {
  import opened Text

  /** The warning box, if any, that an edit shows instead of changing the list. */
  datatype Notice = NoNotice | SelectToEdit | SelectToRemove

  /** The list after an edit, the warning shown, and whether the settings were saved. */
  datatype Outcome = Outcome(commands: seq<string>, notice: Notice, saved: bool)

  const NoSelection: int := -1

  /** A row of the list widget, which mirrors the command list, or no row at all. */
  predicate IsSelection(commands: seq<string>, selected: int) {
    NoSelection <= selected < |commands|
  }

  /** Every stored command is stripped and non-empty, as the edits store them. */
  predicate WellFormed(commands: seq<string>) {
    forall k :: 0 <= k < |commands| ==> commands[k] != [] && Strip(commands[k]) == commands[k]
  }

  /** `commands` with the element at index `i` removed (`del commands[i]`). */
  function RemoveAt(commands: seq<string>, i: nat): (r: seq<string>)
    requires i < |commands|
    ensures |r| == |commands| - 1
    ensures forall k :: 0 <= k < i ==> r[k] == commands[k]
    ensures forall k :: i <= k < |r| ==> r[k] == commands[k + 1]
  {
    commands[..i] + commands[i + 1..]
  }

  /**
    Add: the dialog's text, stripped, is appended when the dialog was accepted
    and the stripped text is non-empty; otherwise nothing happens.
   */
  function Add(commands: seq<string>, accepted: bool, text: string): (o: Outcome)
    ensures o.notice == NoNotice
    ensures o.saved <==> accepted && Strip(text) != []
    ensures o.saved ==> |o.commands| == |commands| + 1 && o.commands[|commands|] == Strip(text)
    ensures !o.saved ==> o.commands == commands
    ensures forall k :: 0 <= k < |commands| ==> o.commands[k] == commands[k]
  {
    var command := Strip(text);
    if accepted && command != [] then Outcome(commands + [command], NoNotice, true)
    else Outcome(commands, NoNotice, false)
  }

  /**
    Edit: without a selection a warning is shown; otherwise the selected entry
    is replaced by the stripped text when the input dialog returned ok and the
    stripped text is non-empty.
   */
  function Edit(commands: seq<string>, selected: int, ok: bool, text: string): (o: Outcome)
    requires IsSelection(commands, selected)
    ensures o.notice == SelectToEdit <==> selected == NoSelection
    ensures o.notice != SelectToEdit ==> o.notice == NoNotice
    ensures o.saved <==> selected != NoSelection && ok && Strip(text) != []
    ensures |o.commands| == |commands|
    ensures forall k :: 0 <= k < |commands| && k != selected ==> o.commands[k] == commands[k]
    ensures o.saved ==> o.commands[selected] == Strip(text)
    ensures !o.saved ==> o.commands == commands
  {
    if selected == NoSelection then Outcome(commands, SelectToEdit, false)
    else
      var command := Strip(text);
      if ok && command != [] then Outcome(commands[selected := command], NoNotice, true)
      else Outcome(commands, NoNotice, false)
  }

  /**
    Remove: without a selection a warning is shown; otherwise the selected entry
    is deleted when the confirmation box was answered Yes.
   */
  function Remove(commands: seq<string>, selected: int, confirmed: bool): (o: Outcome)
    requires IsSelection(commands, selected)
    ensures o.notice == SelectToRemove <==> selected == NoSelection
    ensures o.notice != SelectToRemove ==> o.notice == NoNotice
    ensures o.saved <==> selected != NoSelection && confirmed
    ensures o.saved ==> |o.commands| == |commands| - 1
    ensures o.saved ==> forall k :: 0 <= k < selected ==> o.commands[k] == commands[k]
    ensures o.saved ==> forall k :: selected <= k < |o.commands| ==> o.commands[k] == commands[k + 1]
    ensures !o.saved ==> o.commands == commands
  {
    if selected == NoSelection then Outcome(commands, SelectToRemove, false)
    else if confirmed then Outcome(RemoveAt(commands, selected), NoNotice, true)
    else Outcome(commands, NoNotice, false)
  }

  /** Add keeps every command and gains exactly the stripped text when it saves. */
  lemma AddMultiset(commands: seq<string>, accepted: bool, text: string)
    ensures var o := Add(commands, accepted, text);
      multiset(o.commands) == multiset(commands) + (if o.saved then multiset{Strip(text)} else multiset{})
  {
  }

  /** Remove loses exactly the selected command when it saves, and nothing otherwise. */
  lemma RemoveMultiset(commands: seq<string>, selected: int, confirmed: bool)
    requires IsSelection(commands, selected)
    ensures var o := Remove(commands, selected, confirmed);
      multiset(o.commands) + (if o.saved then multiset{commands[selected]} else multiset{}) == multiset(commands)
  {
    var o := Remove(commands, selected, confirmed);
    if o.saved {
      assert commands == commands[..selected] + [commands[selected]] + commands[selected + 1..];
    }
  }

  /** Edit swaps the selected command for the stripped text when it saves. */
  lemma EditMultiset(commands: seq<string>, selected: int, ok: bool, text: string)
    requires IsSelection(commands, selected)
    ensures var o := Edit(commands, selected, ok, text);
      multiset(o.commands) + (if o.saved then multiset{commands[selected]} else multiset{})
        == multiset(commands) + (if o.saved then multiset{Strip(text)} else multiset{})
  {
    var o := Edit(commands, selected, ok, text);
    if o.saved {
      assert commands == commands[..selected] + [commands[selected]] + commands[selected + 1..];
      assert o.commands == commands[..selected] + [Strip(text)] + commands[selected + 1..];
    }
  }

  /** Add cannot put an unstripped or empty command into a well-formed list. */
  lemma AddPreservesWellFormed(commands: seq<string>, accepted: bool, text: string)
    requires WellFormed(commands)
    ensures WellFormed(Add(commands, accepted, text).commands)
  {
    var o := Add(commands, accepted, text);
    if o.saved {
      StripIdempotent(text);
      forall k | 0 <= k < |o.commands|
        ensures o.commands[k] != [] && Strip(o.commands[k]) == o.commands[k]
      {
        if k < |commands| { assert o.commands[k] == commands[k]; }
      }
    }
  }

  /** Edit cannot put an unstripped or empty command into a well-formed list. */
  lemma EditPreservesWellFormed(commands: seq<string>, selected: int, ok: bool, text: string)
    requires WellFormed(commands)
    requires IsSelection(commands, selected)
    ensures WellFormed(Edit(commands, selected, ok, text).commands)
  {
    var o := Edit(commands, selected, ok, text);
    if o.saved {
      StripIdempotent(text);
      forall k | 0 <= k < |o.commands|
        ensures o.commands[k] != [] && Strip(o.commands[k]) == o.commands[k]
      {
        if k != selected { assert o.commands[k] == commands[k]; }
      }
    }
  }

  /** Remove keeps a well-formed list well-formed. */
  lemma RemovePreservesWellFormed(commands: seq<string>, selected: int, confirmed: bool)
    requires WellFormed(commands)
    requires IsSelection(commands, selected)
    ensures WellFormed(Remove(commands, selected, confirmed).commands)
  {
    var o := Remove(commands, selected, confirmed);
    if o.saved {
      forall k | 0 <= k < |o.commands|
        ensures o.commands[k] != [] && Strip(o.commands[k]) == o.commands[k]
      {
        if k < selected { assert o.commands[k] == commands[k]; } else { assert o.commands[k] == commands[k + 1]; }
      }
    }
  }

  /**
    The edit dialog opens pre-filled with the selected command: accepting it
    unchanged leaves a well-formed list as it was, though the settings are saved.
   */
  lemma EditUnchangedText(commands: seq<string>, selected: nat)
    requires WellFormed(commands)
    requires selected < |commands|
    ensures Edit(commands, selected, true, commands[selected]) == Outcome(commands, NoNotice, true)
  {
    assert commands[selected := commands[selected]] == commands;
  }
}
