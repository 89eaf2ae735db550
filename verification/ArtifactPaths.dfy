/** Member names of an archive and the path components they stand for. */
module ArtifactPaths {
  import opened Prelude

  type Path = seq<string>

  datatype Code = ArchiveInvalid | ArchiveLimitExceeded | DestinationUnsafe | ExtractFailed

  const MAX_MEMBER_PATH_BYTES := 4096
  const MAX_MEMBER_COMPONENT_BYTES := 255
  const MAX_MEMBER_DEPTH := 128

  /** Bytes of a character in UTF-8. */
  function CharBytes(c: char): nat {
    if c as int < 0x80 then 1 else if c as int < 0x800 then 2 else if c as int < 0x10000 then 3 else 4
  }

  function Bytes(s: string): nat {
    if s == "" then 0 else CharBytes(s[0]) + Bytes(s[1..])
  }

  /** `name.split("/")` */
  function Split(s: string): (parts: Path)
    ensures parts != []
  {
    if s == "" then [""]
    else
      var rest := Split(s[1..]);
      if s[0] == '/' then [""] + rest else [[s[0]] + rest[0]] + rest[1..]
  }

  /** `"/".join(parts)` */
  function Join(parts: Path): string {
    if parts == [] then "" else if |parts| == 1 then parts[0] else parts[0] + "/" + Join(parts[1..])
  }

  predicate PlainPart(part: string) {
    part != "" && part != "." && part != ".."
  }

  function MemberPath(name: string, isDir: bool): Result<Path, Code> {
    if name == "" || '\0' in name || '\\' in name then Err(ArchiveInvalid)
    else if name[0] == '/' then Err(ArchiveInvalid)
    else
      var name := if isDir && name[|name| - 1] == '/' then name[..|name| - 1] else name;
      var parts := Split(name);
      if name == "" || exists part | part in parts :: !PlainPart(part) then Err(ArchiveInvalid)
      else if Bytes(name) > MAX_MEMBER_PATH_BYTES || |parts| > MAX_MEMBER_DEPTH
              || exists part | part in parts :: Bytes(part) > MAX_MEMBER_COMPONENT_BYTES
      then Err(ArchiveLimitExceeded)
      else Ok(parts)
  }

  // ---------------------------------------------------------------- what a name stands for

  /** How many characters have a code of at least `n`. */
  function From(s: string, n: int): nat {
    if s == "" then 0 else From(s[1..], n) + if s[0] as int >= n then 1 else 0
  }

  /** The length in UTF-8: one byte for each character, and one more from each of the codes 0x80, 0x800 and
      0x10000 on. */
  function Utf8Length(s: string): nat {
    |s| + From(s, 0x80) + From(s, 0x800) + From(s, 0x10000)
  }

  lemma {:induction false} BytesExactly(s: string)
    ensures Bytes(s) == Utf8Length(s)
  {
    if s != "" { BytesExactly(s[1..]); }
  }

  /** The name of an entry of a directory, and of nothing above it or below it. */
  predicate PlainName(part: string) {
    part != "" && part != "." && part != ".." && '/' !in part && '\\' !in part && '\0' !in part
  }

  /** Such a name that is short enough to be created. */
  predicate SafePart(part: string) {
    PlainName(part) && Utf8Length(part) <= 255
  }

  predicate SafePath(p: Path) {
    && 1 <= |p| <= 128
    && (forall part | part in p :: SafePart(part))
    && Utf8Length(Join(p)) <= 4096
  }

  lemma Glue(c: char, a: string, b: string)
    ensures [c] + a + "/" + b == [c] + (a + "/" + b)
  {
  }

  lemma JoinMore(first: string, rest: Path)
    requires rest != []
    ensures Join([first] + rest) == first + "/" + Join(rest)
  {
    assert ([first] + rest)[1..] == rest;
  }

  /** A character in front of the first part is one in front of the whole name. */
  lemma JoinLonger(c: char, first: string, rest: Path)
    ensures Join([[c] + first] + rest) == [c] + Join([first] + rest)
  {
    if rest != [] {
      JoinMore([c] + first, rest);
      JoinMore(first, rest);
      Glue(c, first, Join(rest));
    }
  }

  lemma {:induction false} JoinSplit(s: string)
    ensures Join(Split(s)) == s
    ensures forall part | part in Split(s) :: '/' !in part
  {
    if s != "" {
      JoinSplit(s[1..]);
      var rest := Split(s[1..]);
      assert rest == [rest[0]] + rest[1..];
      if s[0] == '/' { JoinMore("", rest); } else { JoinLonger(s[0], rest[0], rest[1..]); }
      assert s == [s[0]] + s[1..];
      assert rest[0] in rest && forall part | part in rest[1..] :: part in rest;
    }
  }

  lemma {:induction false} SplitJoin(parts: Path)
    requires parts != [] && forall part | part in parts :: '/' !in part
    ensures Split(Join(parts)) == parts
  {
    if |parts| == 1 {
      SplitPlain(parts[0]);
    } else {
      assert forall part | part in parts[1..] :: part in parts;
      SplitJoin(parts[1..]);
      assert parts[0] in parts;
      SplitPrefix(parts[0], Join(parts[1..]));
      assert parts[0] + "/" + Join(parts[1..]) == parts[0] + ("/" + Join(parts[1..]));
      assert parts == [parts[0]] + parts[1..];
    }
  }

  lemma {:induction false} SplitPlain(s: string)
    requires '/' !in s
    ensures Split(s) == [s]
  {
    if s != "" { SplitPlain(s[1..]); assert s == [s[0]] + s[1..]; }
  }

  lemma {:induction false} SplitPrefix(s: string, rest: string)
    requires '/' !in s
    ensures Split(s + ("/" + rest)) == [s] + Split(rest)
  {
    var all := s + ("/" + rest);
    if s == "" {
      assert all == "/" + rest && all[1..] == rest;
    } else {
      SplitPrefix(s[1..], rest);
      assert all[1..] == s[1..] + ("/" + rest);
      assert s == [s[0]] + s[1..];
    }
  }

  lemma {:induction false} JoinChars(parts: Path, c: char)
    requires c != '/'
    ensures c in Join(parts) <==> exists part :: part in parts && c in part
  {
    if |parts| > 1 {
      JoinChars(parts[1..], c);
      assert forall part :: part in parts <==> part == parts[0] || part in parts[1..];
    }
  }

  lemma JoinStart(parts: Path)
    requires parts != [] && parts[0] != ""
    ensures Join(parts) != "" && Join(parts)[0] == parts[0][0]
  {
  }

  lemma {:induction false} JoinEnd(parts: Path)
    requires parts != [] && forall part | part in parts :: part != "" && '/' !in part
    ensures Join(parts) != "" && Join(parts)[|Join(parts)| - 1] != '/'
  {
    assert parts[0] in parts;
    if |parts| > 1 {
      assert forall part | part in parts[1..] :: part in parts;
      JoinEnd(parts[1..]);
    }
  }

  /** The name spells this path; that of a directory may end in one more slash. */
  predicate Spells(name: string, isDir: bool, p: Path) {
    && p != [] && (forall part | part in p :: PlainName(part))
    && (name == Join(p) || (isDir && name == Join(p) + "/"))
  }

  /** A directory's name without its last slash. */
  function Cut(name: string, isDir: bool): string {
    if isDir && name != "" && name[|name| - 1] == '/' then name[..|name| - 1] else name
  }

  lemma SpelledParts(name: string, isDir: bool, p: Path)
    requires Spells(name, isDir, p)
    ensures name != "" && name[0] != '/' && '\0' !in name && '\\' !in name
    ensures Cut(name, isDir) == Join(p) && Join(p) != "" && Split(Join(p)) == p
  {
    assert p[0] in p;
    JoinStart(p);
    JoinEnd(p);
    JoinChars(p, '\\');
    JoinChars(p, '\0');
    SplitJoin(p);
    if name != Join(p) { assert name[..|name| - 1] == Join(p); }
  }

  lemma SplitSpells(name: string, isDir: bool)
    requires name != "" && name[0] != '/' && '\0' !in name && '\\' !in name
    requires forall part | part in Split(Cut(name, isDir)) :: PlainPart(part)
    ensures Spells(name, isDir, Split(Cut(name, isDir))) && Join(Split(Cut(name, isDir))) == Cut(name, isDir)
  {
    var cut := Cut(name, isDir);
    var p := Split(cut);
    JoinSplit(cut);
    JoinChars(p, '\\');
    JoinChars(p, '\0');
    assert forall c | c in cut :: c in name;
    forall part | part in p ensures PlainName(part) {
      assert '\\' in part ==> exists q :: q in p && '\\' in q;
      assert '\0' in part ==> exists q :: q in p && '\0' in q;
    }
    if cut != name { assert name == cut + "/"; }
  }

  /** Some length is over its limit. */
  predicate Oversized(p: Path) {
    |p| > 128 || Utf8Length(Join(p)) > 4096 || exists part | part in p :: Utf8Length(part) > 255
  }

  lemma SizesAre(p: Path)
    ensures Oversized(p) <==> Bytes(Join(p)) > MAX_MEMBER_PATH_BYTES || |p| > MAX_MEMBER_DEPTH
                              || exists part | part in p :: Bytes(part) > MAX_MEMBER_COMPONENT_BYTES
    ensures p != [] && (forall part | part in p :: PlainName(part)) ==> (SafePath(p) <==> !Oversized(p))
  {
    BytesExactly(Join(p));
    forall part | part in p ensures Bytes(part) == Utf8Length(part) { BytesExactly(part); }
  }

  /** Exactly the safe paths are accepted, each under its own name (a directory also with a trailing
      slash); so two accepted names of one kind denote different paths unless they are the same.  A name that
      spells a path with a length over its limit is told apart from one that spells none. */
  lemma MemberPathExact(name: string, isDir: bool, p: Path)
    ensures MemberPath(name, isDir) == Ok(p) <==>
            SafePath(p) && (name == Join(p) || (isDir && name == Join(p) + "/"))
    ensures Spells(name, isDir, p) && Oversized(p) ==> MemberPath(name, isDir) == Err(ArchiveLimitExceeded)
    ensures MemberPath(name, isDir) == Err(ArchiveLimitExceeded) ==> exists q :: Spells(name, isDir, q) && Oversized(q)
    ensures MemberPath(name, isDir).Ok? || MemberPath(name, isDir).error in {ArchiveInvalid, ArchiveLimitExceeded}
  {
    SizesAre(p);
    if Spells(name, isDir, p) { SpelledParts(name, isDir, p); }
    if MemberPath(name, isDir) != Err(ArchiveInvalid) {
      SplitSpells(name, isDir);
      SizesAre(Split(Cut(name, isDir)));
    }
  }
}
