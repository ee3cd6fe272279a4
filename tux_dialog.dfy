/**
 * The permission dialog of the permission editor: the focus moving over its thirteen
 * slots, space toggling the flag in focus, Enter choosing a user or group, applying or
 * cancelling, and the permission string shown as the flags change.
 *
 * The screen, the user and group lists and the list picker are not part of the model:
 * the picked name is an input of a key.
 */
module TuxDialog {
  import opened TuxPermissions

  /** The nine checkboxes in focus order (user read, write, execute, then group, then
      other), as the dialog's slots 0 to 8 address them. */
  type Checkboxes = c: seq<bool> | |c| == 9 witness [false, false, false, false, false, false, false, false, false]

  /** The checkboxes a mode's flags start as. */
  function BoxesOf(f: Flags): Checkboxes {
    [f.userRead, f.userWrite, f.userExec, f.groupRead, f.groupWrite, f.groupExec, f.otherRead, f.otherWrite, f.otherExec]
  }

  /** The flags the checkboxes stand for. */
  function FlagsOfBoxes(c: Checkboxes): Flags {
    Flags(c[0], c[1], c[2], c[3], c[4], c[5], c[6], c[7], c[8])
  }

  /** The checkboxes stand for the flags they start from. */
  lemma BoxesRoundTrip(f: Flags)
    ensures FlagsOfBoxes(BoxesOf(f)) == f
  {
  }

  /** Focus slots: 0-8 the flags, 9 change user, 10 change group, 11 apply, 12 cancel. */
  const LAST_SLOT := 12

  datatype Key = Up | Down | Left | Right | Space | Enter | Escape | OtherKey

  /** Where the focus goes: up and down move between the rows of the 3x3 checkbox grid
      and otherwise step by one; left and right always step by one; the ends stop it. */
  function Focus(selected: int, key: Key): (r: int)
    requires 0 <= selected <= LAST_SLOT
    ensures 0 <= r <= LAST_SLOT
  {
    match key
    case Up =>
      if selected > 0 then
        if 3 <= selected <= 8 then selected - 3 else selected - 1
      else selected
    case Down =>
      if selected < LAST_SLOT then
        if 0 <= selected <= 5 then selected + 3 else selected + 1
      else selected
    case Left => if selected > 0 then selected - 1 else selected
    case Right => if selected < LAST_SLOT then selected + 1 else selected
    case _ => selected
  }

  /** Up and down move a whole row inside the checkbox grid; they go back where they came
      from, and so do left and right away from the ends. */
  lemma FocusInverse(selected: int)
    requires 0 <= selected <= LAST_SLOT
    ensures 0 <= selected <= 5 ==> Focus(selected, Down) == selected + 3 && Focus(Focus(selected, Down), Up) == selected
    ensures 3 <= selected <= 8 ==> Focus(selected, Up) == selected - 3 && Focus(Focus(selected, Up), Down) == selected
    ensures selected > 0 ==> Focus(Focus(selected, Left), Right) == selected
    ensures selected < LAST_SLOT ==> Focus(Focus(selected, Right), Left) == selected
  {
  }

  /** Space on a checkbox flips that flag, and no other; on the other items it does
      nothing. */
  function Toggle(c: Checkboxes, selected: int): (r: Checkboxes)
    ensures forall i :: 0 <= i < 9 ==> r[i] == (if i == selected then !c[i] else c[i])
    ensures !(0 <= selected < 9) ==> r == c
  {
    if 0 <= selected < 9 then c[selected := !c[selected]] else c
  }

  /** Space flips exactly the flag in focus, and nothing on the other slots; twice, it
      restores the flags. */
  lemma ToggleFlips(c: Checkboxes, selected: int)
    ensures forall i :: 0 <= i < 9 ==> Toggle(c, selected)[i] == (if i == selected then !c[i] else c[i])
    ensures !(0 <= selected < 9) ==> Toggle(c, selected) == c
    ensures Toggle(Toggle(c, selected), selected) == c
  {
  }

  /** How the dialog ends: still open, apply the changes, or cancel. */
  datatype Exit = Running | Apply | Cancel

  /** The state of setup_interface's event loop. */
  class PermissionDialog {
    const isDirectory: bool
    var selected: int
    var flags: Checkboxes
    var username: string
    var groupname: string
    var permStr: string
    var exit: Exit

    /** Focus in range and the shown string matches the flags. */
    predicate Valid()
      reads this
    {
      0 <= selected <= LAST_SLOT && permStr == PermString(isDirectory, FlagsOfBoxes(flags))
    }

    /** The dialog for a file's mode and owner. */
    constructor (mode: bv32, user: string, group: string)
      ensures Valid() && selected == 0 && exit == Running
      ensures isDirectory == IsDirectory(mode) && FlagsOfBoxes(flags) == FlagsOf(mode)
      ensures username == user && groupname == group
    {
      isDirectory := IsDirectory(mode);
      selected := 0;
      flags := BoxesOf(FlagsOf(mode));
      username := user;
      groupname := group;
      exit := Running;
      BoxesRoundTrip(FlagsOf(mode));
      permStr := PermString(IsDirectory(mode), FlagsOf(mode));
    }

    /** One key; picked is the user or group chosen in the list that Enter on slot 9 or
        10 opens, empty when none was chosen. */
    method HandleKey(key: Key, picked: string)
      requires Valid() && exit == Running
      modifies this
      ensures Valid()
      ensures selected == Focus(old(selected), key)
      ensures flags == if key == Space then Toggle(old(flags), old(selected)) else old(flags)
      ensures username == if key == Enter && old(selected) == 9 && picked != [] then picked else old(username)
      ensures groupname == if key == Enter && old(selected) == 10 && picked != [] then picked else old(groupname)
      ensures exit == if key == Escape || (key == Enter && old(selected) == 12) then Cancel
                      else if key == Enter && old(selected) == 11 then Apply
                      else Running
    {
      match key {
        case Up =>
          if selected > 0 {
            if 3 <= selected <= 5 {
              selected := if selected == 3 then 0 else if selected == 4 then 1 else 2;
            } else if 6 <= selected <= 8 {
              selected := if selected == 6 then 3 else if selected == 7 then 4 else 5;
            } else {
              selected := selected - 1;
            }
          }
        case Down =>
          if selected < LAST_SLOT {
            if 0 <= selected <= 2 {
              selected := if selected == 0 then 3 else if selected == 1 then 4 else 5;
            } else if 3 <= selected <= 5 {
              selected := if selected == 3 then 6 else if selected == 4 then 7 else 8;
            } else {
              selected := selected + 1;
            }
          }
        case Left =>
          if selected > 0 {
            selected := selected - 1;
          }
        case Right =>
          if selected < LAST_SLOT {
            selected := selected + 1;
          }
        case Space =>
          if 0 <= selected <= 8 {
            flags := flags[selected := !flags[selected]];
          }
        case Enter =>
          if selected == 9 {
            if picked != [] {
              username := picked;
            }
          } else if selected == 10 {
            if picked != [] {
              groupname := picked;
            }
          } else if selected == 11 {
            exit := Apply;
          } else if selected == 12 {
            exit := Cancel;
            return;
          }
        case Escape =>
          exit := Cancel;
          return;
        case OtherKey =>
      }
      permStr := PermString(isDirectory, FlagsOfBoxes(flags));
    }

    /** The mode chmod is given when the changes are applied. */
    function AppliedMode(): (m: bv32)
      reads this
      ensures m & !0x1FF == 0
      ensures FlagsOf(m) == FlagsOfBoxes(flags)
    {
      NewMode(FlagsOfBoxes(flags))
    }
  }
}
