/** `ZipUtils.unpackToOutputFolder`: an ODS upload is refused when its
    archive holds an executable, and otherwise the `content.xml` part is
    copied, through a 1024-byte buffer, into a fresh temporary file. */
module ZipUtils {
  import opened Optional

  newtype byte = x: int | 0 <= x < 256

  /** An archive entry: its name and its uncompressed bytes. */
  datatype Entry = Entry(name: string, data: seq<byte>)

  /** How many bytes the stream is willing to deliver on one read; it always
      delivers at least one while the entry has bytes left. */
  type Grant = n: nat | n > 0 witness 1

  /** The size of the copy buffer. */
  const BufferSize: nat := 1024

  /** `CONTENT_FILE + ".xml"`. */
  const ContentFile: string := "content"
  const ContentName: string := ContentFile + ".xml"

  /** The characters of Java's `\s`: space, tab, newline, vertical tab, form
      feed and carriage return. */
  predicate IsWhitespace(c: char)
  {
    c == ' ' || c == '\t' || c == '\n' || c == '\U{B}' || c == '\U{C}' || c == '\r'
  }

  /** ASCII case-insensitive equality of two characters, as `(?i)` compares
      without the Unicode-case flag. */
  predicate SameIgnoringCase(c: char, lower: char)
    requires 'a' <= lower <= 'z'
  {
    c == lower || c as int == lower as int - 32
  }

  /** A dot followed by `exe` in any case: what `\.(?i)(exe)$` accepts. */
  predicate ExeSuffix(t: string)
  {
    |t| == 4 && t[0] == '.' && SameIgnoringCase(t[1], 'e') && SameIgnoringCase(t[2], 'x')
    && SameIgnoringCase(t[3], 'e')
  }

  /** Whether `String.matches` accepts the name for `([^\s]+(\.(?i)(exe))$)`,
      read as the regex engine tries it: `[^\s]` takes one character that is
      not whitespace, after which `+` either stops, and the rest must be
      `.exe` in any case, or takes one more. The names accepted are those of
      at least five characters whose last four are `.exe` and with no
      whitespace before them: every character before the dot takes part in
      `[^\s]+`, so one whitespace anywhere in front of it escapes the
      pattern. */
  function IsExeName(name: string): (r: bool)
    ensures r <==> |name| >= 5 && (forall i | 0 <= i < |name| - 4 :: !IsWhitespace(name[i]))
                   && ExeSuffix(name[|name| - 4..])
    decreases |name|
  {
    if name == [] || IsWhitespace(name[0]) then false
    else
      var rest := name[1..];
      assert |name| >= 5 ==> rest[|rest| - 4..] == name[|name| - 4..];
      assert forall i | 0 <= i < |rest| :: rest[i] == name[i + 1];
      ExeSuffix(rest) || IsExeName(rest)
  }

  /** A name split into a stem and a four-character extension matches
      exactly when the stem is non-empty and free of whitespace and the
      extension is `.exe` in any case. */
  lemma ExeNameParts(stem: string, ext: string)
    requires |ext| == 4
    ensures IsExeName(stem + ext) <==> |stem| >= 1 && (forall i | 0 <= i < |stem| :: !IsWhitespace(stem[i])) && ExeSuffix(ext)
  {
    var name := stem + ext;
    assert name[|name| - 4..] == ext;
    assert forall i | 0 <= i < |stem| :: name[i] == stem[i];
  }

  /** The pattern ignores the case of `exe` and of nothing else. */
  lemma ExeNamesMatchAnyCase()
    ensures IsExeName("a.exe") && IsExeName("RUN.EXE") && IsExeName("a.ExE")
  {
  }

  /** Dots and slashes count as part of `[^\s]+`, so a path or a second dot
      in front of the extension still matches. */
  lemma ExeNamesMatchThroughDots()
    ensures IsExeName("d/r.exe") && IsExeName("a.b.exe")
  {
  }

  /** Names the pattern refuses: nothing before the dot, a space before it,
      another extension, and anything after the `exe`. */
  lemma ExeNamesUnmatched()
    ensures !IsExeName(".exe") && !IsExeName("my setup.exe") && !IsExeName("setup.exe.txt")
    ensures !IsExeName("content.xml") && !IsExeName("setup.exe ")
  {
    assert "my setup.exe"[2] == ' ';
    assert "setup.exe.txt"[10] == 't';
    assert "content.xml"[7] == '.' && "content.xml"[8] != 'e';
    assert "setup.exe "[6] != '.';
  }

  /** The first pass's answer, taking the entries in the order
      `getNextEntry` returns them: it is yes exactly when some entry, at any
      position, has an executable's name. */
  function HasExe(archive: seq<Entry>): (r: bool)
    ensures r <==> exists i | 0 <= i < |archive| :: IsExeName(archive[i].name)
  {
    if archive == [] then false
    else
      var rest := archive[1..];
      assert forall i | 0 <= i < |rest| :: rest[i] == archive[i + 1];
      IsExeName(archive[0].name) || HasExe(rest)
  }

  /** The position of the first `content.xml` entry, or the number of entries
      when there is none. */
  function ContentIndex(archive: seq<Entry>): (r: nat)
    ensures r <= |archive|
    ensures forall j | 0 <= j < r :: archive[j].name != ContentName
    ensures r < |archive| ==> archive[r].name == ContentName
  {
    if archive == [] || archive[0].name == ContentName then 0
    else 1 + ContentIndex(archive[1..])
  }

  /** The bytes of the first `content.xml` entry; none when there is no such
      entry. */
  function ContentData(archive: seq<Entry>): seq<byte>
  {
    if ContentIndex(archive) < |archive| then archive[ContentIndex(archive)].data else []
  }

  /** Entries after the first `content.xml` do not matter, and neither do
      entries before it with other names. */
  lemma {:induction false} ContentDataFirst(before: seq<Entry>, data: seq<byte>, after: seq<Entry>)
    requires forall j | 0 <= j < |before| :: before[j].name != ContentName
    ensures ContentData(before + [Entry(ContentName, data)] + after) == data
  {
    var a := before + [Entry(ContentName, data)] + after;
    if before != [] {
      ContentDataFirst(before[1..], data, after);
      assert a[1..] == before[1..] + [Entry(ContentName, data)] + after;
    }
  }

  /** An archive without a `content.xml` entry gives an empty file. */
  lemma NoContentEntry(archive: seq<Entry>)
    requires forall j | 0 <= j < |archive| :: archive[j].name != ContentName
    ensures ContentData(archive) == []
  {
  }

  /** The grant for the `k`-th delivering read; past the schedule the stream
      fills the whole buffer. */
  function GrantAt(grants: seq<Grant>, k: nat, cap: nat): nat
  {
    if k < |grants| then grants[k] else cap
  }

  function Min(a: nat, b: nat): nat
  {
    if a <= b then a else b
  }

  /** The sizes of the chunks a copy loop writes when `n` bytes are left and
      `k` reads have delivered bytes so far, with a buffer of `cap` bytes. */
  function Chunks(n: nat, k: nat, grants: seq<Grant>, cap: nat): seq<nat>
    requires cap > 0
    decreases n
  {
    if n == 0 then []
    else
      var d := Min(Min(cap, n), GrantAt(grants, k, cap));
      [d] + Chunks(n - d, k + 1, grants, cap)
  }

  function Sum(s: seq<nat>): nat
  {
    if s == [] then 0 else s[0] + Sum(s[1..])
  }

  /** The chunks cover the entry exactly, and none is empty or larger than
      the buffer. */
  lemma {:induction false} ChunksCover(n: nat, k: nat, grants: seq<Grant>, cap: nat)
    requires cap > 0
    ensures Sum(Chunks(n, k, grants, cap)) == n
    ensures forall i | 0 <= i < |Chunks(n, k, grants, cap)| :: 1 <= Chunks(n, k, grants, cap)[i] <= cap
    decreases n
  {
    if n > 0 {
      var d := Min(Min(cap, n), GrantAt(grants, k, cap));
      ChunksCover(n - d, k + 1, grants, cap);
      var c := Chunks(n, k, grants, cap);
      assert c[1..] == Chunks(n - d, k + 1, grants, cap);
    }
  }

  /** When the stream grants a full 1024-byte buffer to every read from the
      `k`-th on, every chunk but the last is a full buffer, and there are
      `n / 1024` rounded up of them. */
  lemma {:induction false} FullChunks(n: nat, k: nat, grants: seq<Grant>)
    requires forall j | k <= j < |grants| :: grants[j] >= BufferSize
    ensures |Chunks(n, k, grants, BufferSize)| == (n + BufferSize - 1) / BufferSize
    ensures forall i | 0 <= i < |Chunks(n, k, grants, BufferSize)| - 1 :: Chunks(n, k, grants, BufferSize)[i] == BufferSize
    decreases n
  {
    if n > 0 {
      var d := Min(BufferSize, n);
      FullChunks(n - d, k + 1, grants);
      var c := Chunks(n, k, grants, BufferSize);
      assert c == [d] + Chunks(n - d, k + 1, grants, BufferSize);
      assert c[1..] == Chunks(n - d, k + 1, grants, BufferSize);
    }
  }

  /** A `ZipInputStream` over an archive: the entries it will return, which
      one is open and how far it has been read. */
  class ZipReader {
    const entries: seq<Entry>
    /** How many bytes each delivering read is willing to deliver. */
    const grants: seq<Grant>
    /** The number of entries returned so far. */
    var next: nat
    /** The entry being read, if any. */
    var current: Option<nat>
    /** How many bytes of the current entry have been read. */
    var pos: nat
    /** How many reads have delivered bytes. */
    var delivered: nat
    var open: bool

    ghost predicate Valid()
      reads this
    {
      next <= |entries|
      && (current.Some? ==> current.value < |entries| && pos <= |entries[current.value].data|)
      && (current.None? ==> pos == 0)
    }

    /** The bytes of the entry being read; none when no entry is open. */
    ghost function Data(): seq<byte>
      reads this`current
    {
      if current.Some? && current.value < |entries| then entries[current.value].data else []
    }

    /** `new ZipInputStream(new FileInputStream(aFile))`. */
    constructor (entries: seq<Entry>, grants: seq<Grant>)
      ensures Valid() && open
      ensures this.entries == entries && this.grants == grants
      ensures next == 0 && current == None && pos == 0 && delivered == 0
    {
      this.entries, this.grants := entries, grants;
      next, current, pos, delivered, open := 0, None, 0, 0, true;
    }

    /** `getNextEntry`: closes the current entry and opens the next one, or
        answers None when all have been returned. */
    method GetNextEntry() returns (e: Option<Entry>)
      requires Valid() && open
      modifies this`next, this`current, this`pos
      ensures Valid()
      ensures old(next) < |entries| ==>
                e == Some(entries[old(next)]) && next == old(next) + 1 && current == Some(old(next)) && pos == 0
      ensures old(next) == |entries| ==> e == None && next == old(next) && current == None && pos == 0
    {
      if next < |entries| {
        e := Some(entries[next]);
        current := Some(next);
        next := next + 1;
      } else {
        e := None;
        current := None;
      }
      pos := 0;
    }

    /** `read(buffer)`: 0 for an empty buffer, -1 when no entry is open or the
        open one is exhausted, and otherwise the size of the chunk it copies
        to the front of the buffer. */
    method Read(buffer: array<byte>) returns (len: int)
      requires Valid() && open
      modifies this`pos, this`delivered, buffer
      ensures Valid() && current == old(current)
      ensures buffer.Length == 0 ==> len == 0 && pos == old(pos) && delivered == old(delivered)
      ensures buffer.Length > 0 && old(pos) == |Data()| ==> len == -1 && pos == old(pos) && delivered == old(delivered)
      ensures buffer.Length > 0 && old(pos) < |Data()| ==>
                len == Min(Min(buffer.Length, |Data()| - old(pos)), GrantAt(grants, old(delivered), buffer.Length))
                && len > 0 && pos == old(pos) + len && delivered == old(delivered) + 1
                && buffer[..len] == Data()[old(pos)..pos]
      ensures len > 0 ==> buffer[len..] == old(buffer[len..])
      ensures len <= 0 ==> buffer[..] == old(buffer[..])
    {
      if buffer.Length == 0 {
        return 0;
      }
      var data := if current.Some? then entries[current.value].data else [];
      if pos == |data| {
        return -1;
      }
      len := Min(Min(buffer.Length, |data| - pos), GrantAt(grants, delivered, buffer.Length));
      forall i | 0 <= i < len {
        buffer[i] := data[pos + i];
      }
      pos := pos + len;
      delivered := delivered + 1;
    }

    /** `closeEntry`. */
    method CloseEntry()
      requires Valid() && open
      modifies this`current, this`pos
      ensures Valid() && current == None
    {
      current, pos := None, 0;
    }

    /** `close`. */
    method Close()
      modifies this`open
      ensures !open
    {
      open := false;
    }
  }

  /** A file written through a `FileOutputStream`. */
  class OutputFile {
    var contents: seq<byte>

    constructor ()
      ensures contents == []
    {
      contents := [];
    }

    /** `write(buffer, off, len)`. */
    method Write(buffer: array<byte>, off: nat, len: nat)
      requires off + len <= buffer.Length
      modifies this
      ensures contents == old(contents) + buffer[off..off + len]
    {
      contents := contents + buffer[off..off + len];
    }
  }

  /** The first pass of `unpackToOutputFolder` (its lines 20-28): walks the
      entries of a fresh stream and stops at the first executable's name. */
  method ScanForExe(zip: ZipReader) returns (found: bool)
    requires zip.Valid() && zip.open && zip.next == 0
    modifies zip`next, zip`current, zip`pos
    ensures zip.Valid() && zip.open
    ensures found <==> HasExe(zip.entries)
  {
    var entry := zip.GetNextEntry();
    while entry.Some?
      invariant zip.Valid() && zip.open
      invariant entry.Some? ==> 1 <= zip.next && entry == Some(zip.entries[zip.next - 1])
      invariant entry.None? ==> zip.next == |zip.entries|
      invariant forall j | 0 <= j < (if entry.Some? then zip.next - 1 else zip.next) :: !IsExeName(zip.entries[j].name)
      decreases |zip.entries| - zip.next, entry.Some?
    {
      if IsExeName(entry.value.name) {
        return true;
      }
      entry := zip.GetNextEntry();
    }
    return false;
  }

  /** The second pass (lines 33-37): walks the entries of a fresh stream up
      to the first `content.xml`, which is then open with nothing read. */
  method SeekContent(zip: ZipReader)
    requires zip.Valid() && zip.open && zip.next == 0 && zip.delivered == 0
    modifies zip`next, zip`current, zip`pos
    ensures zip.Valid() && zip.open && zip.delivered == 0 && zip.pos == 0
    ensures zip.Data() == ContentData(zip.entries)
  {
    var entry := zip.GetNextEntry();
    while entry.Some? && entry.value.name != ContentName
      invariant zip.Valid() && zip.open && zip.pos == 0
      invariant entry.Some? ==> 1 <= zip.next && entry == Some(zip.entries[zip.next - 1]) && zip.current == Some(zip.next - 1)
      invariant entry.None? ==> zip.next == |zip.entries| && zip.current == None
      invariant forall j | 0 <= j < (if entry.Some? then zip.next - 1 else zip.next) :: zip.entries[j].name != ContentName
      decreases |zip.entries| - zip.next, entry.Some?
    {
      entry := zip.GetNextEntry();
    }
  }

  /** One round of the copy loop: the read in its condition and, when that
      delivers bytes, their write to the file. */
  method CopyChunk(zip: ZipReader, buffer: array<byte>, fos: OutputFile) returns (len: int)
    requires zip.Valid() && zip.open && buffer.Length > 0
    modifies zip`pos, zip`delivered, buffer, fos
    ensures zip.Valid() && zip.open && zip.current == old(zip.current)
    ensures len <= 0 ==> old(zip.pos) == |zip.Data()| && zip.pos == old(zip.pos)
                         && zip.delivered == old(zip.delivered) && fos.contents == old(fos.contents)
    ensures len > 0 ==> old(zip.pos) < zip.pos <= |zip.Data()| && zip.delivered == old(zip.delivered) + 1
                        && fos.contents == old(fos.contents) + zip.Data()[old(zip.pos)..zip.pos]
                        && Chunks(|zip.Data()| - old(zip.pos), old(zip.delivered), zip.grants, buffer.Length)
                           == [len] + Chunks(|zip.Data()| - zip.pos, zip.delivered, zip.grants, buffer.Length)
  {
    len := zip.Read(buffer);
    if len > 0 {
      fos.Write(buffer, 0, len);
    }
  }

  /** The copy loop (lines 44-47): reads the open entry into the buffer until
      a read delivers nothing, writing each chunk to the file. The file ends
      up holding the whole entry, and the chunks are those `Chunks` gives. */
  method CopyEntry(zip: ZipReader, buffer: array<byte>, fos: OutputFile) returns (ghost writes: seq<nat>)
    requires zip.Valid() && zip.open && zip.pos == 0 && zip.delivered == 0
    requires buffer.Length > 0 && fos.contents == []
    modifies zip`pos, zip`delivered, buffer, fos
    ensures zip.Valid() && zip.open
    ensures fos.contents == old(zip.Data())
    ensures writes == Chunks(|old(zip.Data())|, 0, zip.grants, buffer.Length)
  {
    ghost var data := zip.Data();
    writes := [];
    while true
      invariant zip.Valid() && zip.open && zip.Data() == data
      invariant fos.contents == data[..zip.pos]
      invariant writes + Chunks(|data| - zip.pos, zip.delivered, zip.grants, buffer.Length)
                == Chunks(|data|, 0, zip.grants, buffer.Length)
      decreases |data| - zip.pos
    {
      ghost var before, rest := zip.pos, Chunks(|data| - zip.pos, zip.delivered, zip.grants, buffer.Length);
      var len := CopyChunk(zip, buffer, fos);
      if len <= 0 {
        break;
      }
      assert fos.contents == data[..zip.pos] by {
        assert data[..zip.pos] == data[..before] + data[before..zip.pos];
      }
      ghost var rest' := Chunks(|data| - zip.pos, zip.delivered, zip.grants, buffer.Length);
      assert writes + [len] + rest' == writes + rest by {
        assert rest == [len] + rest';
      }
      writes := writes + [len];
    }
    assert zip.pos == |data| && data[..zip.pos] == data;
    assert Chunks(|data| - zip.pos, zip.delivered, zip.grants, buffer.Length) == [];
  }

  /** `unpackToOutputFolder`: None (the Java method's null) when some entry
      has an executable's name; otherwise the contents of the temporary file,
      which are exactly the bytes of the first `content.xml` entry (none when
      there is no such entry), written in the chunks `Chunks` describes. The
      archive stands for the file and `grants` for how the stream splits its
      reads. */
  method UnpackToOutputFolder(archive: seq<Entry>, grants: seq<Grant>)
    returns (r: Option<seq<byte>>, ghost writes: seq<nat>)
    ensures r.None? <==> HasExe(archive)
    ensures r.Some? ==> r.value == ContentData(archive)
    ensures r.Some? ==> writes == Chunks(|ContentData(archive)|, 0, grants, BufferSize)
  {
    var buffer := new byte[BufferSize];
    var zip := new ZipReader(archive, grants);
    var exe := ScanForExe(zip);
    zip.CloseEntry();
    zip.Close();
    if exe {
      return None, [];
    }

    zip := new ZipReader(archive, grants);
    SeekContent(zip);
    var fos := new OutputFile();
    writes := CopyEntry(zip, buffer, fos);
    zip.CloseEntry();
    zip.Close();
    r := Some(fos.contents);
  }
}
