/**
 * The string side of a UPnPObject's address: `setTarget`, the path joined
 * from the target chain (`getPath`), `handlerPath`, and the percent escaping
 * of `encodePath` into a caller's buffer.
 */
module Paths {
  import opened Text
  import opened Wrappers

  /** Size of the `_target` and `_displayName` char arrays. */
  const TARGET_SIZE: nat := 32

  /** What `setTarget` stores: one leading '/' dropped, then an strlcpy into 32 bytes. */
  function TargetOf(t: string): (r: string)
    ensures |r| < TARGET_SIZE
  {
    if |t| > 0 && t[0] == '/' then Fit(t[1..], TARGET_SIZE) else Fit(t, TARGET_SIZE)
  }

  /** Exactly one leading '/' goes: "/x" and "x" store the same target, and a
      second '/' survives. */
  lemma TargetDropsOneSlash(s: string)
    ensures TargetOf("/" + s) == TargetOf(s) || (|s| > 0 && s[0] == '/')
    ensures TargetOf("//" + s) == Fit("/" + s, TARGET_SIZE)
    ensures TargetOf("//" + s)[0] == '/'
  {
    assert ("/" + s)[1..] == s;
    assert ("//" + s)[1..] == "/" + s;
  }

  /** A short target without a leading '/' is kept as given. */
  lemma TargetKeptWhenShort(t: string)
    requires |t| < TARGET_SIZE && (|t| == 0 || t[0] != '/')
    ensures TargetOf(t) == t
  {
  }

  /** "/t1/t2/.../tn": the text `getPath` prints for a chain of targets, top first. */
  function Join(targets: seq<string>): (r: string)
    ensures |targets| > 0 ==> |r| > 0 && r[0] == '/'
  {
    if targets == [] then [] else Join(targets[..|targets| - 1]) + "/" + targets[|targets| - 1]
  }

  /** Joining a chain of n targets of fewer than 32 characters gives at most 32 * n characters. */
  lemma {:induction false} JoinLength(targets: seq<string>)
    requires forall k :: 0 <= k < |targets| ==> |targets[k]| < TARGET_SIZE
    ensures |Join(targets)| <= TARGET_SIZE * |targets|
  {
    if targets != [] {
      JoinLength(targets[..|targets| - 1]);
    }
  }

  lemma JoinOne(a: string)
    ensures Join([a]) == "/" + a
  {
    assert [a][..0] == [];
  }

  lemma JoinTwo(a: string, b: string)
    ensures Join([a, b]) == "/" + a + "/" + b
  {
    assert [a, b][..1] == [a];
    JoinOne(a);
  }

  lemma JoinThree(a: string, b: string, c: string)
    ensures Join([a, b, c]) == "/" + a + "/" + b + "/" + c
  {
    assert [a, b, c][..2] == [a, b];
    JoinTwo(a, b);
  }

  /** `handlerPath` as written: getPath into the buffer, then "/name" into what is left of it. */
  function HandlerPath(path: string, name: string, size: nat): (r: string)
    requires size >= 1
    ensures |r| < size
  {
    var p := Fit(path, size);
    p + Fit("/" + name, size - |p|)
  }

  /** `handlerPath` is "getPath + '/' + name" truncated once to size-1, and the size
      it passes to the second snprintf is never zero. */
  lemma HandlerPathIsTruncatedAppend(path: string, name: string, size: nat)
    requires size >= 1
    ensures size - |Fit(path, size)| >= 1
    ensures HandlerPath(path, name, size) == Fit(path + "/" + name, size)
  {
    var p := Fit(path, size);
    if |path| < size {
      FitPrefixAppend(path, "/" + name, size);
      assert path + "/" + name == path + ("/" + name);
    } else {
      var q := Fit(path + "/" + name, size);
      assert q == (path + "/" + name)[..size - 1];
      assert p == path[..size - 1];
      assert q == p;
    }
  }

  /* ---------- encodePath ---------- */

  predicate IsEscaped(c: char) { c == '/' || c == '?' || c == '=' || c == '&' || c == '+' }

  /** The text `encodePath` writes for one character. '+' becomes "%20", as in the source. */
  function Escape(c: char): (r: string)
    ensures IsEscaped(c) ==> |r| == 3 && r[0] == '%'
    ensures !IsEscaped(c) ==> r == [c]
  {
    if c == '/' then "%2F"
    else if c == '?' then "%3F"
    else if c == '=' then "%3D"
    else if c == '&' then "%26"
    else if c == '+' then "%20"
    else [c]
  }

  /** The whole encoding, character by character in input order. */
  function Encode(s: string): string {
    if s == [] then [] else Escape(s[0]) + Encode(s[1..])
  }

  lemma {:induction false} EncodeAppend(s: string, t: string)
    ensures Encode(s + t) == Encode(s) + Encode(t)
  {
    if s == [] {
      assert s + t == t;
    } else {
      assert (s + t)[1..] == s[1..] + t;
      EncodeAppend(s[1..], t);
    }
  }

  lemma EncodeSnoc(s: string, c: char)
    ensures Encode(s + [c]) == Encode(s) + Escape(c)
  {
    EncodeAppend(s, [c]);
    assert Encode([c]) == Escape(c) + Encode([]);
  }

  /** The encoding is between one and three times as long as its input. */
  lemma {:induction false} EncodeLength(s: string)
    ensures |s| <= |Encode(s)| <= 3 * |s|
  {
    if s != [] { EncodeLength(s[1..]); }
  }

  /** A string with none of the five characters is copied unchanged. */
  lemma {:induction false} EncodeIdentity(s: string)
    requires forall k :: 0 <= k < |s| ==> !IsEscaped(s[k])
    ensures Encode(s) == s
  {
    if s != [] {
      EncodeIdentity(s[1..]);
      assert s == [s[0]] + s[1..];
    }
  }

  /** None of the five characters is left in the output. */
  lemma {:induction false} EncodeLeavesNoEscaped(s: string)
    ensures forall k :: 0 <= k < |Encode(s)| ==> !IsEscaped(Encode(s)[k])
  {
    if s != [] {
      EncodeLeavesNoEscaped(s[1..]);
      var e, rest := Escape(s[0]), Encode(s[1..]);
      forall k | 0 <= k < |e + rest| ensures !IsEscaped((e + rest)[k]) {
        if k >= |e| { assert (e + rest)[k] == rest[k - |e|]; }
      }
    }
  }

  /** The escape sequence a '%' starts, if it is one of the five. */
  function Unescape(code: string): (r: Option<char>)
    requires |code| == 3
    ensures r.Some? ==> code[0] == '%' && IsEscaped(r.value) && Escape(r.value) == code
  {
    if code == "%2F" then Some('/')
    else if code == "%3F" then Some('?')
    else if code == "%3D" then Some('=')
    else if code == "%26" then Some('&')
    else if code == "%20" then Some('+')
    else None
  }

  /** The inverse reading: each recognised escape back to its character. */
  function Decode(e: string): string
    decreases |e|
  {
    if e == [] then []
    else if |e| >= 3 && Unescape(e[..3]).Some? then [Unescape(e[..3]).value] + Decode(e[3..])
    else [e[0]] + Decode(e[1..])
  }

  /** Each of the five escapes is recognised as the character it stands for. */
  lemma UnescapeEscape(c: char)
    requires IsEscaped(c)
    ensures Unescape(Escape(c)) == Some(c)
  {
  }

  /** Decoding reads one escape back as the character it came from. */
  lemma DecodeEscape(c: char, rest: string)
    requires c != '%'
    ensures Decode(Escape(c) + rest) == [c] + Decode(rest)
  {
    var e := Escape(c);
    if IsEscaped(c) {
      assert (e + rest)[..3] == e;
      assert (e + rest)[3..] == rest;
      UnescapeEscape(c);
    } else {
      DecodePlain(c, rest);
    }
  }

  lemma DecodePlain(c: char, rest: string)
    requires c != '%' && !IsEscaped(c)
    ensures Decode([c] + rest) == [c] + Decode(rest)
  {
    var t := [c] + rest;
    assert t[0] == c && t[1..] == rest;
    assert |t| >= 3 ==> t[..3][0] == c;
  }

  /** Decoding undoes the encoding of any path without '%'. */
  lemma {:induction false} DecodeEncode(s: string)
    requires forall k :: 0 <= k < |s| ==> s[k] != '%'
    ensures Decode(Encode(s)) == s
  {
    if s != [] {
      assert s[0] != '%';
      DecodeEscape(s[0], Encode(s[1..]));
      DecodeEncode(s[1..]);
      assert s == [s[0]] + s[1..];
    }
  }

  /** '%' itself is not escaped, so two different paths can share an encoding. */
  lemma EncodeNotInjective()
    ensures Encode("/") == Encode("%2F")
    ensures Decode(Encode("%2F")) == "/"
  {
    assert Encode("%2F") == "%" + Encode("2F");
    assert Encode("2F") == "2" + Encode("F");
    assert Encode("F") == "F" + Encode("");
    assert Encode("/") == "%2F" + Encode("");
    assert "%2F"[..3] == "%2F";
    assert Decode("%2F") == "/" + Decode("");
  }

  /** The guard `j < bufferSize` is tested only before each character, so the escape
      started at j may end past the buffer. The as-written loop stays inside a
      buffer of `size` bytes exactly when every escape it starts ends by `size`. */
  predicate NoOverrun(path: string, size: nat) {
    forall i :: 0 <= i < |path| && |Encode(path[..i])| < size ==> |Encode(path[..i + 1])| <= size
  }

  /** A buffer longer than three characters per input character is always safe. */
  lemma RoomyBufferNoOverrun(path: string, size: nat)
    requires size > 3 * |path|
    ensures NoOverrun(path, size)
  {
    forall i | 0 <= i < |path| && |Encode(path[..i])| < size
      ensures |Encode(path[..i + 1])| <= size
    {
      EncodeLength(path[..i + 1]);
    }
  }

  /** Without the five characters every step writes one byte, so any size is safe. */
  lemma PlainPathNoOverrun(path: string, size: nat)
    requires forall k :: 0 <= k < |path| ==> !IsEscaped(path[k])
    ensures NoOverrun(path, size)
  {
    forall i | 0 <= i < |path| && |Encode(path[..i])| < size
      ensures |Encode(path[..i + 1])| == |Encode(path[..i])| + 1
    {
      assert path[..i + 1] == path[..i] + [path[i]];
      EncodeSnoc(path[..i], path[i]);
    }
  }

  /** A two-byte buffer and the path "a/": after 'a' the index is 1 < 2, so the '/'
      is escaped and "%2F" occupies bytes 1 to 3, two bytes past the end. */
  lemma EncodePathOverrun()
    ensures |Encode("a/"[..1])| == 1 < 2
    ensures |Encode("a/"[..2])| == 4
    ensures !NoOverrun("a/", 2)
  {
    assert "a/"[..1] == "a";
    assert "a/"[..2] == "a/";
    assert Encode("a") == "a" + Encode("");
    assert Encode("a/") == "a" + Encode("/");
    assert Encode("/") == "%2F" + Encode("");
  }

  /** The `buffer[j++] = ...` writes of one escape. */
  method WriteAt(buffer: array<char>, j: nat, e: string)
    requires j + |e| <= buffer.Length
    modifies buffer
    ensures buffer[..j + |e|] == old(buffer[..j]) + e
    ensures buffer[j + |e|..] == old(buffer[j + |e|..])
  {
    forall k | 0 <= k < |e| { buffer[j + k] := e[k]; }
  }

  /** `encodePath` as written. Where it does not overrun, the buffer ends up holding
      the encoding truncated to bufferSize-1 characters and a NUL, as snprintf would
      leave it. A zero-size buffer is excluded: the source then writes buffer[-1]. */
  method EncodePath(buffer: array<char>, path: string)
    requires buffer.Length >= 1 && NoOverrun(path, buffer.Length)
    modifies buffer
    ensures var r := Fit(Encode(path), buffer.Length);
      buffer[..|r|] == r && buffer[|r|] == '\0' && buffer[|r| + 1..] == old(buffer[|r| + 1..])
  {
    var size := buffer.Length;
    var i, j := 0, 0;
    while j < size && i < |path|
      invariant 0 <= i <= |path|
      invariant j == |Encode(path[..i])| <= size
      invariant buffer[..j] == Encode(path[..i])
      invariant buffer[j..] == old(buffer[j..])
    {
      assert path[..i + 1] == path[..i] + [path[i]];
      EncodeSnoc(path[..i], path[i]);
      var e := Escape(path[i]);
      assert |Encode(path[..i + 1])| <= size;
      WriteAt(buffer, j, e);
      i, j := i + 1, j + |e|;
    }
    ghost var done := Encode(path[..i]);
    assert path[i..] == path[i..];
    assert path == path[..i] + path[i..];
    EncodeAppend(path[..i], path[i..]);
    if j < size {
      assert i == |path| && path[..i] == path;
      buffer[j] := '\0';
    } else {
      assert j == size;
      buffer[size - 1] := '\0';
      assert buffer[..size - 1] == done[..size - 1];
    }
  }

  /* ---------- corrected encodePath ---------- */

  /** The longest run of whole escapes from the start of `path` that fits in `room`
      characters: an escape that does not fit is not begun. */
  function FitPieces(path: string, room: nat): string {
    if path == [] || |Escape(path[0])| > room then []
    else Escape(path[0]) + FitPieces(path[1..], room - |Escape(path[0])|)
  }

  /** The bounded output is the encoding of a prefix of the path (so never a split
      escape), fits the room, and is the whole encoding when that fits. */
  lemma {:induction false} FitPiecesIsEncodedPrefix(path: string, room: nat)
    ensures exists n :: 0 <= n <= |path| && FitPieces(path, room) == Encode(path[..n])
    ensures |FitPieces(path, room)| <= room
    ensures |Encode(path)| <= room ==> FitPieces(path, room) == Encode(path)
  {
    if path == [] {
      assert FitPieces(path, room) == Encode(path[..0]);
    } else if |Escape(path[0])| > room {
      assert FitPieces(path, room) == Encode(path[..0]);
    } else {
      var e := Escape(path[0]);
      FitPiecesIsEncodedPrefix(path[1..], room - |e|);
      var n :| 0 <= n <= |path[1..]| && FitPieces(path[1..], room - |e|) == Encode(path[1..][..n]);
      assert path[..n + 1] == [path[0]] + path[1..][..n];
      assert Encode(path[..n + 1]) == e + Encode(path[1..][..n]);
    }
  }

  /** One step of the bounded loop: FitPieces from index i, when the escape at i fits. */
  lemma FitPiecesStep(path: string, i: nat, room: nat)
    requires i < |path| && |Escape(path[i])| <= room
    ensures FitPieces(path[i..], room) == Escape(path[i]) + FitPieces(path[i + 1..], room - |Escape(path[i])|)
  {
    assert path[i..][0] == path[i];
    assert path[i..][1..] == path[i + 1..];
  }

  /** Where the bounded loop stops, nothing more fits. */
  lemma FitPiecesStop(path: string, i: nat, room: nat)
    requires i <= |path|
    requires i < |path| ==> |Escape(path[i])| > room
    ensures FitPieces(path[i..], room) == []
  {
    if i < |path| { assert path[i..][0] == path[i]; }
  }

  /** The bounded loop's invariant survives writing one more escape. */
  lemma BoundedStep(path: string, i: nat, room: nat, j: nat)
    requires i < |path| && j + |Escape(path[i])| <= room
    requires FitPieces(path, room) == Encode(path[..i]) + FitPieces(path[i..], room - j)
    ensures Encode(path[..i + 1]) == Encode(path[..i]) + Escape(path[i])
    ensures FitPieces(path, room) == Encode(path[..i + 1]) + FitPieces(path[i + 1..], room - (j + |Escape(path[i])|))
  {
    var e := Escape(path[i]);
    assert path[..i + 1] == path[..i] + [path[i]];
    EncodeSnoc(path[..i], path[i]);
    FitPiecesStep(path, i, room - j);
    assert Encode(path[..i]) + (e + FitPieces(path[i + 1..], room - j - |e|))
        == (Encode(path[..i]) + e) + FitPieces(path[i + 1..], room - j - |e|);
  }

  /** The loop with the bound fixed: an escape is written only when it and the NUL fit. */
  method EncodePathBounded(buffer: array<char>, path: string)
    requires buffer.Length >= 1
    modifies buffer
    ensures var r := FitPieces(path, buffer.Length - 1);
      |r| < buffer.Length && buffer[..|r|] == r && buffer[|r|] == '\0'
    ensures var r := FitPieces(path, buffer.Length - 1);
      buffer[|r| + 1..] == old(buffer[|r| + 1..])
  {
    var room := buffer.Length - 1;
    var i, j := 0, 0;
    assert path[0..] == path;
    while i < |path| && j + |Escape(path[i])| <= room
      invariant 0 <= i <= |path| && 0 <= j <= room
      invariant buffer[..j] == Encode(path[..i])
      invariant FitPieces(path, room) == Encode(path[..i]) + FitPieces(path[i..], room - j)
      invariant buffer[j..] == old(buffer[j..])
    {
      var e := Escape(path[i]);
      BoundedStep(path, i, room, j);
      ghost var before := buffer[..];
      WriteAt(buffer, j, e);
      assert buffer[j + |e|..] == before[j + |e|..] == old(buffer[j + |e|..]);
      i, j := i + 1, j + |e|;
    }
    FitPiecesStop(path, i, room - j);
    buffer[j] := '\0';
  }
}
