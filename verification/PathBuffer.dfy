/** A path in a buffer that grows at both ends. */
module PathBuffer {
  import opened Bytes

  const SLASH: byte := 0x2F
  const CHUNK_SIZE: nat := 256

  class Path {
    /** The allocation; its length is the field size. */
    var buffer: array?<byte>
    /** The field start: a pointer into the buffer, if set, and a length. */
    var start: Option<nat>
    var length: nat
    /** Which of the two chunk-size functions the path uses. */
    const modulo: bool

    /** FS_path_valid. */
    predicate FsValid()
      reads this
    {
      buffer != null && start.Some? && start.value < buffer.Length && start.value + length <= buffer.Length
    }

    /** What the operations take for granted: an unset start goes with no content, a set one lies in the buffer. */
    ghost predicate Usable()
      reads this
    {
      if start.None? then length == 0 else buffer != null && start.value + length <= buffer.Length
    }

    ghost function Content(): bytes
      requires Usable()
      reads this, buffer
    {
      if start.None? then [] else buffer[start.value..start.value + length]
    }

    constructor (modulo: bool)
      ensures Usable() && Content() == [] && buffer == null && this.modulo == modulo
    {
      this.modulo := modulo;
      buffer, start, length := null, None, 0;
    }

    /** fs_path_calc_chunk_size_modulo and fs_path_calc_chunk_size_default: by how much to grow for `more` octets. */
    function ChunkSize(size: nat, more: nat): (grow: nat)
      ensures more <= grow
      ensures if modulo then (size + grow) % 256 == 0 && grow < more + 256 else grow == more
    {
      if modulo then
        var total := size + more;
        var count := total / CHUNK_SIZE + if total % CHUNK_SIZE > 0 then 1 else 0;
        assert (count * CHUNK_SIZE) % CHUNK_SIZE == 0;
        count * CHUNK_SIZE - size
      else more
    }

    /** realloc: the old octets stay in front. */
    method Grow(grow: nat)
      modifies this`buffer
      ensures buffer != null && fresh(buffer)
      ensures buffer.Length == grow + if old(buffer) == null then 0 else old(buffer).Length
      ensures old(buffer) != null ==> buffer[..old(buffer).Length] == old(buffer[..])
    {
      var size := if buffer == null then 0 else buffer.Length;
      var bigger := new byte[size + grow](_ => 0);
      for i := 0 to size
        invariant buffer == old(buffer) && (buffer != null ==> size == buffer.Length && bigger[..i] == old(buffer[..])[..i])
      {
        bigger[i] := buffer[i];
      }
      buffer := bigger;
    }

    /** fs_path_append_hlpr: there is room behind. */
    method PutBehind(text: bytes, separator: bool)
      requires Usable() && start.Some? && start.value + length + |Prefix(separator)| + |text| <= buffer.Length
      modifies this`length, buffer
      ensures Usable() && length == old(length) + |Prefix(separator)| + |text|
      ensures Content() == old(Content()) + Prefix(separator) + text
    {
      ghost var was := Content();
      if separator { PutOneBehind([SLASH]); }
      PutOneBehind(text);
      assert was + [] == was;
    }

    method PutOneBehind(text: bytes)
      requires Usable() && start.Some? && start.value + length + |text| <= buffer.Length
      modifies this`length, buffer
      ensures Usable() && length == old(length) + |text| && Content() == old(Content()) + text
    {
      hide Splice;
      Behind(buffer[..], start.value, length, text);
      Copy(buffer, start.value + length, text);
      length := length + |text|;
    }

    /** fs_path_append_write_dynamic. */
    method AppendDynamic(text: bytes, separator: bool) returns (written: nat)
      requires Usable() && text != []
      modifies this`buffer, this`start, this`length, buffer
      ensures FsValid() && Usable()
      ensures Content() == old(Content()) + Prefix(separator) + text
      ensures written == |Prefix(separator)| + |text|
      ensures buffer == old(buffer) || fresh(buffer)
    {
      written := |text| + if separator then 1 else 0;
      var left := 0;
      if buffer != null {
        if start.None? { start, length := Some(0), 0; }
        left := buffer.Length - start.value - length;
      }
      if left < written {
        ghost var before := if buffer == null then [] else buffer[..];
        Grow(ChunkSize(if buffer == null then 0 else buffer.Length, written - left));
        if start.None? { start, length := Some(0), 0; }
        else { PrefixSlice(buffer[..], |before|, start.value, start.value + length); }
      }
      PutBehind(text, separator);
    }

    /** fs_path_append_write_static: nothing is written unless everything fits. */
    method AppendStatic(text: bytes, separator: bool) returns (written: nat)
      requires Usable() && buffer != null && text != []
      modifies this`start, this`length, buffer
      ensures Usable() && start.Some?
      ensures var all := Prefix(separator) + text;
        var fits := old(if start.None? then 0 else start.value + length) + |all| <= buffer.Length;
        && written == (if fits then |all| else 0)
        && Content() == old(Content()) + if fits then all else []
    {
      if start.None? { start, length := Some(0), 0; }
      var left := buffer.Length - start.value - length;
      written := |text| + if separator then 1 else 0;
      if left < written { return 0; }
      ghost var was := Content();
      PutBehind(text, separator);
      assert was + Prefix(separator) + text == was + (Prefix(separator) + text);
    }

    /** fs_path_prepend_hlpr: there is room in front. */
    method PutInFront(text: bytes, separator: bool)
      requires Usable() && start.Some? && start.value >= |Prefix(separator)| + |text|
      modifies this`start, this`length, buffer
      ensures Usable() && start == Some(old(start.value) - |Prefix(separator)| - |text|)
      ensures Content() == text + Prefix(separator) + old(Content())
    {
      hide Splice;
      ghost var was := Content();
      if separator { PutOneInFront([SLASH]); }
      PutOneInFront(text);
      Associates(text, Prefix(separator), was);
    }

    method PutOneInFront(text: bytes)
      requires Usable() && start.Some? && start.value >= |text|
      modifies this`start, this`length, buffer
      ensures Usable() && start == Some(old(start.value) - |text|) && Content() == text + old(Content())
    {
      hide Splice;
      InFront(buffer[..], start.value, length, text);
      Copy(buffer, start.value - |text|, text);
      start, length := Some(start.value - |text|), length + |text|;
    }

    /**
     fs_path_prepend_write_dynamic. A path that has no start yet is begun at the end of the buffer with
     a zero octet, which counts as content.
     */
    method PrependDynamic(text: bytes, separator: bool) returns (written: nat)
      requires Usable() && text != [] && (start.None? ==> buffer != null && buffer.Length > 0)
      modifies this`buffer, this`start, this`length, buffer
      ensures FsValid() && Usable()
      ensures Content() == text + Prefix(separator) + if old(start).None? then [0] else old(Content())
      ensures written == |Prefix(separator)| + |text|
      ensures buffer == old(buffer) || fresh(buffer)
    {
      written := |text| + if separator then 1 else 0;
      if start.None? {
        start, length := Some(buffer.Length - 1), 1;
        buffer[start.value] := 0;
      }
      var left := start.value - written;
      if left < 0 { GrowInFront(-left); }
      PutInFront(text, separator);
    }

    /** Growing moves the content up. */
    method GrowInFront(more: nat)
      requires Usable() && start.Some? && more > 0
      modifies this`buffer, this`start
      ensures Usable() && fresh(buffer) && Content() == old(Content())
      ensures start.Some? && start.value >= old(start.value) + more
    {
      hide Splice;
      ghost var was := Content();
      var grow := ChunkSize(buffer.Length, more);
      ghost var before := buffer[..];
      Grow(grow);
      var content := buffer[start.value..start.value + length];
      assert content == was by {
        PrefixSlice(buffer[..], |before|, start.value, start.value + length);
        PrefixSlice(before, |before|, start.value, start.value + length);
      }
      Copy(buffer, start.value + grow, content);
      start := Some(start.value + grow);
    }

    /** FS_path_prepend_write_static. */
    method PrependStatic(text: bytes, separator: bool) returns (written: nat)
      requires Usable() && text != [] && start.Some?
      modifies this`start, this`length, buffer
      ensures Usable()
      ensures var all := text + Prefix(separator);
        var fits := |all| <= old(start.value);
        && written == (if fits then |all| else 0)
        && Content() == (if fits then all else []) + old(Content())
    {
      written := |text| + if separator then 1 else 0;
      if start.value < written { return 0; }
      PutInFront(text, separator);
    }

    /**
     FS_path_get_filename: where what follows the last separator begins in the content, or that separator itself
     when nothing follows it, or nowhere when there is none; and the name, in the first case. With remove
     the path is cut off at that separator.
     */
    method GetFilename(remove: bool) returns (pos: Option<nat>, name: Option<bytes>)
      requires Usable()
      modifies this`length
      ensures Usable()
      ensures pos == FoundAt(old(Content())) && name == NameOf(old(Content()))
      ensures Content() == if remove then old(Content())[..CutAt(old(Content()))] else old(Content())
    {
      hide LastSlash, NameOf, CutAt, FoundAt;
      ghost var text := Content();
      NameBy(text);
      if start.None? || length == 0 { return None, None; }
      pos := SearchReverse();
      if pos.None? {
        assert text[..length] == text;
        return None, None;
      }
      name := CutOff(pos.value, remove);
      if name.Some? { pos := Some(pos.value + 1); }
    }

    /** What is done with the separator found at pos. */
    method CutOff(pos: nat, remove: bool) returns (name: Option<bytes>)
      requires Usable() && start.Some? && pos < length
      modifies this`length
      ensures Usable()
      ensures name == if pos == |old(Content())| - 1 then None else Some(old(Content())[pos + 1..])
      ensures Content() == if remove then old(Content())[..pos] else old(Content())
    {
      ContentSlice(buffer[..], start.value, length, pos);
      if pos == length - 1 {
        if remove { length := length - 1; }
        return None;
      }
      name := Some(buffer[start.value + pos + 1..start.value + length]);
      if remove { length := pos; }
    }

    /** FS_path_search_path_seperator_reverse. */
    method SearchReverse() returns (found: Option<nat>)
      requires Usable() && start.Some?
      ensures found == LastSlash(Content(), length)
    {
      ghost var text := Content();
      var pos := length;
      while pos > 0
        invariant 0 <= pos <= length && LastSlash(text, pos) == LastSlash(text, length)
      {
        assert text[pos - 1] == buffer[start.value + pos - 1];
        if buffer[start.value + pos - 1] == SLASH { return Some(pos - 1); }
        pos := pos - 1;
      }
      return None;
    }
  }

  lemma {:induction false} NameBy(text: bytes)
    ensures var p := LastSlash(text, |text|);
      && CutAt(text) == (if p.None? then |text| else p.value)
      && FoundAt(text) == (if p.None? then None else if p.value == |text| - 1 then p else Some(p.value + 1))
      && NameOf(text) == if p.None? || p.value == |text| - 1 then None else Some(text[p.value + 1..])
  {}

  lemma ContentSlice(b: bytes, s: nat, n: nat, p: nat)
    requires s + n <= |b| && p < n
    ensures var text := b[s..s + n];
      text[p + 1..] == b[s + p + 1..s + n] && text[..p] == b[s..s + p] && text[..n - 1] == b[s..s + n - 1]
  {
    Slice(b, s, s + n, 0, p);
    Slice(b, s, s + n, 0, n - 1);
    Slice(b, s, s + n, p + 1, n);
  }

  lemma Associates(a: bytes, b: bytes, c: bytes)
    ensures a + (b + c) == a + b + c
  {}

  lemma Behind(b: bytes, s: nat, n: nat, x: bytes)
    requires s + n + |x| <= |b|
    ensures Splice(b, s + n, x)[s..s + n + |x|] == b[s..s + n] + x
  {
    var r := Splice(b, s + n, x);
    assert r[s..s + n + |x|] == r[s..s + n] + r[s + n..s + n + |x|];
    assert r[s..s + n] == b[s..s + n];
  }

  lemma InFront(b: bytes, s: nat, n: nat, x: bytes)
    requires |x| <= s && s + n <= |b|
    ensures Splice(b, s - |x|, x)[s - |x|..s + n] == x + b[s..s + n]
  {
    var r := Splice(b, s - |x|, x);
    assert r[s - |x|..s + n] == r[s - |x|..s - |x| + |x|] + r[s..s + n];
    assert r[s..s + n] == b[s..s + n];
  }

  lemma PrefixSlice(b: bytes, n: nat, i: nat, j: nat)
    requires i <= j <= n <= |b|
    ensures b[..n][i..j] == b[i..j]
  {}

  function Prefix(separator: bool): bytes {
    if separator then [SLASH] else []
  }

  /** The position of the last separator before n. */
  function LastSlash(text: bytes, n: nat): (p: Option<nat>)
    requires n <= |text|
    ensures p.Some? ==> p.value < n && text[p.value] == SLASH
  {
    if n == 0 then None else if text[n - 1] == SLASH then Some(n - 1) else LastSlash(text, n - 1)
  }

  function CutAt(text: bytes): (n: nat)
    ensures n <= |text|
  {
    match LastSlash(text, |text|) case None => |text| case Some(p) => p
  }

  function NameOf(text: bytes): Option<bytes> {
    match LastSlash(text, |text|)
    case None => None
    case Some(p) => if p == |text| - 1 then None else Some(text[p + 1..])
  }

  /** The place FS_path_get_filename tells its caller. */
  function FoundAt(text: bytes): Option<nat> {
    match LastSlash(text, |text|)
    case None => None
    case Some(p) => if p == |text| - 1 then Some(p) else Some(p + 1)
  }

  lemma {:induction false} LastSlashAt(text: bytes, p: nat, n: nat)
    requires p < n <= |text| && text[p] == SLASH && forall k :: p < k < n ==> text[k] != SLASH
    ensures LastSlash(text, n) == Some(p)
    decreases n
  {
    if p < n - 1 { LastSlashAt(text, p, n - 1); }
  }

  /** Taking the file name off undoes appending it. */
  lemma FilenameUndoesAppend(text: bytes, name: bytes)
    requires name != [] && SLASH !in name
    ensures var appended := text + Prefix(true) + name;
      && NameOf(appended) == Some(name) && FoundAt(appended) == Some(|text| + 1)
      && appended[..CutAt(appended)] == text
  {
    var appended := text + Prefix(true) + name;
    assert forall k :: |text| < k < |appended| ==> appended[k] == name[k - |text| - 1];
    LastSlashAt(appended, |text|, |appended|);
  }

  lemma {:induction false} NoSlash(text: bytes, n: nat)
    requires n <= |text| && forall k :: 0 <= k < n ==> text[k] != 0x2F
    ensures LastSlash(text, n) == None
  {
    if n > 0 { NoSlash(text, n - 1); }
  }

  /** Without a separator there is no file name to take off; behind a last separator there is none, and the separator goes. */
  lemma {:induction false} FilenameMissing(text: bytes)
    ensures 0x2F !in text ==> NameOf(text) == None && FoundAt(text) == None && text[..CutAt(text)] == text
    ensures var ending := text + [0x2F];
      NameOf(ending) == None && FoundAt(ending) == Some(|text|) && ending[..CutAt(ending)] == text
  {
    if 0x2F !in text { NoSlash(text, |text|); }
    LastSlashAt(text + [0x2F], |text|, |text| + 1);
  }

  // Runs of edits

  datatype Edit = Append(text: bytes, separator: bool) | Prepend(text: bytes, separator: bool)

  function Applied(content: bytes, e: Edit): bytes {
    if e.Append? then content + Prefix(e.separator) + e.text else e.text + Prefix(e.separator) + content
  }

  function Edited(content: bytes, edits: seq<Edit>): bytes
    decreases |edits|
  {
    if edits == [] then content else Edited(Applied(content, edits[0]), edits[1..])
  }

  /** What the edits come on top of: a first prepend begins an unset path with a zero octet. */
  function Begun(unset: bool, content: bytes, edits: seq<Edit>): bytes {
    if unset && edits != [] && edits[0].Prepend? then [0] else content
  }

  /** Any mix of appends and prepends on any path; a first prepend needs a buffer to begin in. */
  method EditAll(path: Path, edits: seq<Edit>)
    requires path.Usable() && forall i :: 0 <= i < |edits| ==> edits[i].text != []
    requires path.start.None? && edits != [] && edits[0].Prepend? ==> path.buffer != null && path.buffer.Length > 0
    modifies path, path.buffer
    ensures path.Usable() && (edits != [] || old(path.FsValid()) ==> path.FsValid())
    ensures path.Content() == Edited(Begun(old(path.start.None?), old(path.Content()), edits), edits)
  {
    hide Edited, Begun, Prefix;
    ghost var goal := Edited(Begun(path.start.None?, path.Content(), edits), edits);
    assert edits[0..] == edits;
    for i := 0 to |edits|
      invariant path.Usable() && (path.buffer == old(path.buffer) || fresh(path.buffer))
      invariant (i > 0 || old(path.FsValid())) ==> path.FsValid()
      invariant i == 0 ==> path.start == old(path.start) && path.buffer == old(path.buffer)
      invariant Edited(Begun(path.start.None?, path.Content(), edits[i..]), edits[i..]) == goal
    {
      EditedStep(Begun(path.start.None?, path.Content(), edits[i..]), edits, i);
      BegunFirst(path.start.None?, path.Content(), edits[i..]);
      var written;
      match edits[i] {
        case Append(text, separator) => written := path.AppendDynamic(text, separator);
        case Prepend(text, separator) => written := path.PrependDynamic(text, separator);
      }
      BegunSet(path.Content(), edits[i + 1..]);
    }
    BegunNone(path.start.None?, path.Content(), edits[|edits|..]);
    EditedNone(path.Content(), edits[|edits|..]);
  }

  lemma BegunFirst(unset: bool, content: bytes, edits: seq<Edit>)
    requires edits != []
    ensures Begun(unset, content, edits) == if unset && edits[0].Prepend? then [0] else content
  {}

  lemma BegunSet(content: bytes, edits: seq<Edit>)
    ensures Begun(false, content, edits) == content
  {}

  lemma BegunNone(unset: bool, content: bytes, edits: seq<Edit>)
    requires edits == []
    ensures Begun(unset, content, edits) == content
  {}

  lemma {:induction false} EditedStep(content: bytes, edits: seq<Edit>, i: nat)
    requires i < |edits|
    ensures Edited(content, edits[i..]) == Edited(Applied(content, edits[i]), edits[i + 1..])
  {
    assert edits[i..][1..] == edits[i + 1..];
  }

  lemma {:induction false} EditedNone(content: bytes, edits: seq<Edit>)
    requires edits == []
    ensures Edited(content, edits) == content
  {}
}
