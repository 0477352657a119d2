/** The read-only path fields with a button that opens a file or folder dialog. The dialog
    itself belongs to the host toolkit; its answer is passed in. */
module Selector {

  /** The button's icon. */
  datatype Icon = RightArrow | Close

  /** What the dialog gives back: a path (empty when the user cancels), or an exception that
      the toggle catches and prints. */
  datatype DialogResult = Chosen(path: string) | Failed

  class FilePathSelector {
    var text: string
    var placeholder: string
    var readOnly: bool
    var fileTypes: string
    /** Whether a path is selected, so that the button clears it. */
    var state: bool
    var icon: Icon

    /** The button shows the close icon exactly while the state is set. */
    ghost predicate Valid()
      reads this
    {
      state <==> icon == Close
    }

    /** The state records whether the field holds a path. */
    ghost predicate Consistent()
      reads this
    {
      state <==> text != ""
    }

    constructor ()
      ensures Valid() && Consistent()
      ensures text == "" && placeholder == "Select a file path" && readOnly && fileTypes == "*"
      ensures !state && icon == RightArrow
    {
      text := "";
      placeholder := "Select a file path";
      readOnly := true;
      fileTypes := "*";
      state := false;
      icon := RightArrow;
    }

    method SetFileTypes(types: string)
      modifies this`fileTypes
      ensures fileTypes == types
    {
      fileTypes := types;
    }

    /** `setText`: the state is set exactly for a non-empty text. */
    method SetText(t: string)
      modifies this`text, this`state, this`icon
      ensures text == t
      ensures state <==> t != ""
      ensures Valid() && Consistent()
    {
      text := t;
      if t != "" {
        state := true;
        icon := Close;
      } else {
        state := false;
        icon := RightArrow;
      }
    }

    /** `_toggleSelect`: with a path selected, the button clears it; otherwise it asks the
        dialog. A cancelled dialog changes nothing; a chosen path is shown. When the dialog
        raises, the exception is printed and the state is still set, whatever the text. */
    method ToggleSelect(result: DialogResult)
      requires Valid()
      modifies this`text, this`state, this`icon
      ensures Valid()
      ensures old(state) ==> text == "" && !state && icon == RightArrow
      ensures !old(state) && result == Chosen("") ==> text == old(text) && state == old(state) && icon == old(icon)
      ensures !old(state) && result.Chosen? && result.path != "" ==> text == result.path && state && icon == Close
      ensures !old(state) && result == Failed ==> text == old(text) && state && icon == Close
      ensures old(Consistent()) && result != Failed ==> Consistent()
    {
      if state {
        text := "";
        state := false;
        icon := RightArrow;
      } else {
        if result.Chosen? {
          if result.path == "" {
            return;
          }
          SetText(result.path);
        }
        state := true;
        icon := Close;
      }
    }
  }

  class FolderPathSelector {
    var text: string
    var placeholder: string
    var readOnly: bool

    constructor ()
      ensures text == "" && placeholder == "Select a file folder" && readOnly
    {
      text := "";
      placeholder := "Select a file folder";
      readOnly := true;
    }

    /** `_toggleSelect`: the folder the dialog gives becomes the text; an empty answer or an
        exception leaves the text as it was. */
    method ToggleSelect(result: DialogResult)
      modifies this`text
      ensures result.Chosen? && result.path != "" ==> text == result.path
      ensures result == Failed || result == Chosen("") ==> text == old(text)
    {
      if result.Chosen? && result.path != "" {
        text := result.path;
      }
    }
  }
}
