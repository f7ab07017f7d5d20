/** The frozen inventory of everything a staging pass must produce. */
module MaterialPlan {
  import opened Wrappers
  import opened DurableFiles

  /** A relative path, as its UTF-8 bytes. */
  type Path = Bytes

  const SLASH: Byte := 47
  const DOT: Byte := 46
  const BACKSLASH: Byte := 92

  function Ascii(text: string): Bytes {
    seq(|text|, i requires 0 <= i < |text| => (text[i] as int % 256) as Byte)
  }

  predicate Continues(bytes: Bytes, from: nat, count: nat) {
    from + count <= |bytes| && forall i | from <= i < from + count :: 0x80 <= bytes[i] <= 0xBF
  }

  /** How many bytes the first character takes; none when the bytes are not UTF-8.
      Overlong forms, surrogates and numbers past the last character are not. */
  function CharacterLength(bytes: Bytes): (length: nat)
    ensures length <= |bytes|
  {
    if bytes == [] then 0
    else if bytes[0] < 0x80 then 1
    else if 0xC2 <= bytes[0] <= 0xDF && Continues(bytes, 1, 1) then 2
    else if 0xE0 <= bytes[0] <= 0xEF && Continues(bytes, 1, 2)
            && (bytes[0] == 0xE0 ==> 0xA0 <= bytes[1]) && (bytes[0] == 0xED ==> bytes[1] <= 0x9F) then 3
    else if 0xF0 <= bytes[0] <= 0xF4 && Continues(bytes, 1, 3)
            && (bytes[0] == 0xF0 ==> 0x90 <= bytes[1]) && (bytes[0] == 0xF4 ==> bytes[1] <= 0x8F) then 4
    else 0
  }

  /** What a strict UTF-8 decoder accepts. */
  predicate Utf8(bytes: Bytes)
    decreases |bytes|
  {
    bytes == [] || (CharacterLength(bytes) > 0 && Utf8(bytes[CharacterLength(bytes)..]))
  }

  lemma {:induction false} AsciiIsUtf8(bytes: Bytes)
    requires forall b | b in bytes :: b < 0x80
    ensures Utf8(bytes)
  {
    if bytes != [] {
      assert bytes[0] in bytes && forall b | b in bytes[1..] :: b in bytes;
      AsciiIsUtf8(bytes[1..]);
    }
  }

  lemma WordIsUtf8(text: string)
    requires forall i | 0 <= i < |text| :: text[i] as int < 0x80
    ensures Utf8(Ascii(text))
  {
    AsciiIsUtf8(Ascii(text));
  }

  /** The directory at the top of every plan: `authority-set`. */
  const TOP: Path := Ascii("authority-set")

  datatype Object = Folder | File(payload: Bytes)

  datatype Entry = Entry(path: Path, confidential: bool, content: Object)

  /** Byte order, as Python compares `bytes`. */
  predicate Below(a: Path, b: Path) {
    b != [] && (a == [] || a[0] < b[0] || (a[0] == b[0] && Below(a[1..], b[1..])))
  }

  lemma {:induction false} BelowIsTotal(a: Path, b: Path)
    ensures a == b || Below(a, b) || Below(b, a)
    ensures !(Below(a, b) && Below(b, a))
  {
    if a != [] && b != [] && a[0] == b[0] {
      BelowIsTotal(a[1..], b[1..]);
      assert a == [a[0]] + a[1..] && b == [b[0]] + b[1..];
    }
  }

  lemma {:induction false} BelowIsTransitive(a: Path, b: Path, c: Path)
    requires Below(a, b) && Below(b, c)
    ensures Below(a, c)
  {
    if a != [] && a[0] == b[0] == c[0] {
      BelowIsTransitive(a[1..], b[1..], c[1..]);
    }
  }

  /** A proper beginning comes first. */
  lemma {:induction false} PrefixBelow(b: Path, n: nat)
    requires n < |b|
    ensures Below(b[..n], b)
  {
    if n > 0 {
      PrefixBelow(b[1..], n - 1);
      assert b[..n][1..] == b[1..][..n - 1];
    }
  }

  /** Where the last component starts: just after the last slash. */
  function NameStart(path: Path): (start: nat)
    ensures start <= |path|
    ensures start > 0 ==> path[start - 1] == SLASH
    ensures forall i | start <= i < |path| :: path[i] != SLASH
  {
    if path == [] then 0
    else if path[|path| - 1] == SLASH then |path|
    else NameStart(path[..|path| - 1])
  }

  /** The directory that holds a path; the transaction root is the empty path. */
  function Parent(path: Path): (parent: Path)
    ensures |parent| < |path| || path == parent == []
    ensures parent <= path
  {
    if NameStart(path) == 0 then [] else path[..NameStart(path) - 1]
  }

  /** The components between slashes. */
  function Parts(path: Path): (parts: seq<Bytes>)
    ensures |parts| > 0
    decreases |path|
  {
    if NameStart(path) == 0 then [path]
    else Parts(path[..NameStart(path) - 1]) + [path[NameStart(path)..]]
  }

  /** A relative POSIX path with no dot, parent, backslash or empty part. */
  predicate CanonicalPath(path: Path) {
    && Utf8(path) && path != [] && BACKSLASH !in path
    && forall part | part in Parts(path) :: part !in {[], [DOT], [DOT, DOT]}
  }

  predicate WithinTop(path: Path) {
    path == TOP || TOP + [SLASH] <= path
  }

  /** What is stored under a path, if the entries list it. */
  function KindAt(entries: seq<Entry>, path: Path): Option<Object> {
    if entries == [] then None
    else if entries[0].path == path then Some(entries[0].content)
    else KindAt(entries[1..], path)
  }

  predicate Sorted(entries: seq<Entry>) {
    forall i, j | 0 <= i < j < |entries| :: !Below(entries[j].path, entries[i].path)
  }

  predicate UniquePaths(entries: seq<Entry>) {
    forall i, j | 0 <= i < j < |entries| :: entries[i].path != entries[j].path
  }

  /** Every directory on the way to an entry is itself listed, as a directory. */
  predicate ParentsListed(entries: seq<Entry>) {
    forall i, k | 0 <= i < |entries| && 0 <= k < |entries[i].path| && entries[i].path[k] == SLASH ::
      KindAt(entries, entries[i].path[..k]) == Some(Folder)
  }

  /** What the constructor of a plan admits. */
  predicate Admitted(entries: seq<Entry>) {
    && entries != []
    && (forall entry | entry in entries :: CanonicalPath(entry.path) && WithinTop(entry.path))
    && Sorted(entries) && UniquePaths(entries)
    && KindAt(entries, TOP) == Some(Folder)
    && ParentsListed(entries)
  }

  lemma {:induction false} KindIsListed(entries: seq<Entry>, path: Path) returns (i: nat)
    requires KindAt(entries, path).Some?
    ensures i < |entries| && entries[i].path == path && KindAt(entries, path) == Some(entries[i].content)
  {
    if entries[0].path == path {
      i := 0;
    } else {
      i := KindIsListed(entries[1..], path);
      i := i + 1;
    }
  }

  lemma {:induction false} ListedHasKind(entries: seq<Entry>, i: nat)
    requires i < |entries| && UniquePaths(entries)
    ensures KindAt(entries, entries[i].path) == Some(entries[i].content)
  {
    if i > 0 {
      ListedHasKind(entries[1..], i - 1);
    }
  }

  lemma LowerIsEarlier(entries: seq<Entry>, p: nat, i: nat)
    requires Sorted(entries) && p < |entries| && i < |entries| && Below(entries[p].path, entries[i].path)
    ensures p < i
  {
    BelowIsTotal(entries[p].path, entries[p].path);
  }

  /** Byte order and the listing of parents put every directory before what it holds. */
  lemma ParentComesFirst(entries: seq<Entry>, i: nat) returns (p: nat)
    requires Admitted(entries) && i < |entries| && Parent(entries[i].path) != []
    ensures p < i && entries[p] == Entry(Parent(entries[i].path), entries[p].confidential, Folder)
  {
    var path := entries[i].path;
    var k := NameStart(path) - 1;
    assert path[k] == SLASH;
    p := KindIsListed(entries, path[..k]);
    PrefixBelow(path, k);
    LowerIsEarlier(entries, p, i);
  }

  /** Below the top every path has a parent other than the transaction root. */
  lemma WithinTopHasParent(path: Path)
    requires WithinTop(path)
    ensures Parent(path) == [] <==> path == TOP
  {
    if path == TOP {
      TopHasNoSlash();
    } else {
      assert path[|TOP|] == (TOP + [SLASH])[|TOP|] == SLASH;
      assert NameStart(path) > |TOP|;
    }
  }

  lemma TopHasNoSlash()
    ensures SLASH !in TOP && |TOP| == 13
  {
    assert |"authority-set"| == 13;
    forall i | 0 <= i < |TOP| ensures TOP[i] != SLASH {
      assert TOP[i] as int == "authority-set"[i] as int % 256;
    }
  }
}
