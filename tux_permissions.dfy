/**
 * The permission editor's flags: the nine permission flags of a file, the mode bits
 * built from them and read from them, and the `ls`-style permission string.
 *
 * stat and chmod are not part of the model: the mode is an input and the new mode an
 * output.
 */
module TuxPermissions {

  const S_IFMT: bv32 := 0xF000
  const S_IFDIR: bv32 := 0x4000
  const S_IRUSR: bv32 := 0x100
  const S_IWUSR: bv32 := 0x80
  const S_IXUSR: bv32 := 0x40
  const S_IRGRP: bv32 := 0x20
  const S_IWGRP: bv32 := 0x10
  const S_IXGRP: bv32 := 0x8
  const S_IROTH: bv32 := 0x4
  const S_IWOTH: bv32 := 0x2
  const S_IXOTH: bv32 := 0x1

  /** The nine checkboxes of the dialog, user, group and other, each read, write, execute. */
  datatype Flags = Flags(userRead: bool, userWrite: bool, userExec: bool,
                         groupRead: bool, groupWrite: bool, groupExec: bool,
                         otherRead: bool, otherWrite: bool, otherExec: bool)

  predicate IsDirectory(mode: bv32) {
    mode & S_IFMT == S_IFDIR
  }

  /** The flags read from a mode, as the dialog starts. */
  function FlagsOf(mode: bv32): Flags {
    Flags(mode & S_IRUSR != 0, mode & S_IWUSR != 0, mode & S_IXUSR != 0,
          mode & S_IRGRP != 0, mode & S_IWGRP != 0, mode & S_IXGRP != 0,
          mode & S_IROTH != 0, mode & S_IWOTH != 0, mode & S_IXOTH != 0)
  }

  /** new_mode: the bit of every flag that is set. The new mode has only permission bits,
      so the file type and the setuid, setgid and sticky bits are all clear, and each flag
      sets exactly its own bit: reading the flags back from it gives the flags. */
  function NewMode(f: Flags): (m: bv32)
    ensures m & !0x1FF == 0
    ensures FlagsOf(m) == f
  {
    (if f.userRead then S_IRUSR else 0) | (if f.userWrite then S_IWUSR else 0) | (if f.userExec then S_IXUSR else 0) |
    (if f.groupRead then S_IRGRP else 0) | (if f.groupWrite then S_IWGRP else 0) | (if f.groupExec then S_IXGRP else 0) |
    (if f.otherRead then S_IROTH else 0) | (if f.otherWrite then S_IWOTH else 0) | (if f.otherExec then S_IXOTH else 0)
  }

  /** Building the mode from a mode's flags keeps exactly its nine permission bits. */
  lemma NewModeOfFlags(mode: bv32)
    ensures NewMode(FlagsOf(mode)) == mode & 0x1FF
  {
  }

  function Letter(b: bool, c: char): char {
    if b then c else '-'
  }

  /** perm_str: `d` for a directory, then r, w, x or `-` per flag, user, group, other. The
      string has ten characters, starts with `d` exactly for a directory, and shows each
      flag's letter exactly when the flag is set. */
  function PermString(isDir: bool, f: Flags): (s: string)
    ensures |s| == 10 && (s[0] == 'd' <==> isDir)
    ensures (s[1] == 'r' <==> f.userRead) && (s[2] == 'w' <==> f.userWrite) && (s[3] == 'x' <==> f.userExec)
    ensures (s[4] == 'r' <==> f.groupRead) && (s[5] == 'w' <==> f.groupWrite) && (s[6] == 'x' <==> f.groupExec)
    ensures (s[7] == 'r' <==> f.otherRead) && (s[8] == 'w' <==> f.otherWrite) && (s[9] == 'x' <==> f.otherExec)
  {
    [Letter(isDir, 'd'),
     Letter(f.userRead, 'r'), Letter(f.userWrite, 'w'), Letter(f.userExec, 'x'),
     Letter(f.groupRead, 'r'), Letter(f.groupWrite, 'w'), Letter(f.groupExec, 'x'),
     Letter(f.otherRead, 'r'), Letter(f.otherWrite, 'w'), Letter(f.otherExec, 'x')]
  }

  /** What a permission string reads as: a directory mark and nine flags, or nothing. */
  datatype PermReading = Unreadable | Reading(isDir: bool, flags: Flags)

  /** c is the letter or `-`. */
  predicate Mark(c: char, letter: char) {
    c == letter || c == '-'
  }

  /** The flags and the directory mark read back from a permission string. */
  function ParsePermString(s: string): PermReading {
    if |s| == 10 && Mark(s[0], 'd') && Mark(s[1], 'r') && Mark(s[2], 'w') && Mark(s[3], 'x') &&
       Mark(s[4], 'r') && Mark(s[5], 'w') && Mark(s[6], 'x') && Mark(s[7], 'r') && Mark(s[8], 'w') && Mark(s[9], 'x')
    then Reading(s[0] == 'd', Flags(s[1] == 'r', s[2] == 'w', s[3] == 'x', s[4] == 'r', s[5] == 'w', s[6] == 'x',
                                    s[7] == 'r', s[8] == 'w', s[9] == 'x'))
    else Unreadable
  }

  /** The flags and the directory mark can be recovered from the string. */
  lemma PermStringRoundTrip(isDir: bool, f: Flags)
    ensures ParsePermString(PermString(isDir, f)) == Reading(isDir, f)
  {
  }

  /** Only the string built from a reading reads as it. */
  lemma PermStringUnique(s: string, isDir: bool, f: Flags)
    requires ParsePermString(s) == Reading(isDir, f)
    ensures s == PermString(isDir, f)
  {
    var p := PermString(isDir, f);
    assert s[0] == p[0] && s[1] == p[1] && s[2] == p[2] && s[3] == p[3] && s[4] == p[4];
    assert s[5] == p[5] && s[6] == p[6] && s[7] == p[7] && s[8] == p[8] && s[9] == p[9];
  }
}
