/** What the streaming route sends once it has a file to deliver
    (app.py:421-455, repeated for the merge retry at 469-490): the MIME type
    chosen from the file's suffix, the `Content-Disposition` and
    `Content-Length` headers, and the body, read back in chunks of 8192
    bytes. */
module Delivery {
  import opened Text

  /** A file of the scratch directory: its name and its bytes. */
  datatype FileEntry = FileEntry(name: string, content: seq<bv8>)

  /** `PurePath.suffix`: the name from its last `.` on, when that dot is
      neither the first nor the last character of the name; otherwise
      nothing. */
  function Suffix(name: string): string
  {
    match LastIndex(name, '.')
    case Some(i) => if 0 < i < |name| - 1 then name[i..] else ""
    case None => ""
  }

  /** The MIME type for a file (app.py:446-447): chosen by the lower-cased
      suffix. */
  function ContentType(name: string): string
  {
    var ext := Lower(Suffix(name));
    if ext == ".mp4" then "video/mp4"
    else if ext == ".mp3" then "audio/mpeg"
    else "application/octet-stream"
  }

  /** The name ends, in any letter case, with `ext`, and something comes
      before it. */
  predicate HasExtension(name: string, ext: string)
  {
    |name| > |ext| && Lower(name[|name| - |ext|..]) == ext
  }

  lemma LowerCharDot(c: char)
    ensures LowerChar(c) == '.' <==> c == '.'
  {
  }

  /** For the two extensions the route knows, the lower-cased suffix is the
      extension exactly when the name ends with it, in any case, after at
      least one other character: `a.MP4` is a video, `.mp4` is not. */
  lemma {:induction false} SuffixIsExtension(name: string, ext: string)
    requires ext == ".mp4" || ext == ".mp3"
    ensures Lower(Suffix(name)) == ext <==> HasExtension(name, ext)
  {
    assert ext[0] == '.' && ext[1] != '.' && ext[2] != '.' && ext[3] != '.';
    if HasExtension(name, ext) {
      var n := |name| - 4;
      var t := name[n..];
      LowerIndex(t);
      LowerCharDot(t[0]);
      LowerCharDot(t[1]);
      LowerCharDot(t[2]);
      LowerCharDot(t[3]);
      assert name[n] == '.';
      assert forall k :: n < k < |name| ==> name[k] != '.' by {
        forall k | n < k < |name| ensures name[k] != '.' {
          assert name[k] == t[k - n];
        }
      }
      match LastIndex(name, '.')
      case Some(i) =>
        assert i == n;
      case None =>
        assert false;
    }
  }

  /** The content type is the video type exactly for names ending in
      `.mp4`, the audio type exactly for names ending in `.mp3` (in any
      letter case, after a non-empty stem), and the generic binary type for
      every other name. */
  lemma ContentTypeByExtension(name: string)
    ensures ContentType(name) == "video/mp4" <==> HasExtension(name, ".mp4")
    ensures ContentType(name) == "audio/mpeg" <==> HasExtension(name, ".mp3")
    ensures ContentType(name) == "application/octet-stream" <==>
      !HasExtension(name, ".mp4") && !HasExtension(name, ".mp3")
  {
    SuffixIsExtension(name, ".mp4");
    SuffixIsExtension(name, ".mp3");
  }

  /** The parameter of `Content-Disposition` that carries the name. */
  const FilenameParam := "filename=\""

  /** The `Content-Disposition` header: the file offered as an attachment
      under its own name, quoted as it is, with no escaping. */
  function Disposition(name: string): string
  {
    "attachment; " + FilenameParam + name + "\""
  }

  /** The `Content-Length` header: the file size in decimal. */
  function ContentLength(f: FileEntry): string
  {
    NatToString(|f.content|)
  }

  /** The size of one `f.read` (app.py:431). */
  const ChunkSize: nat := 8192

  /** The chunks the generator yields for a file's contents: full chunks
      of `ChunkSize` bytes and a shorter last one, and none for an empty
      file. */
  function Chunks(data: seq<bv8>): seq<seq<bv8>>
    decreases |data|
  {
    if |data| <= ChunkSize then (if data == [] then [] else [data])
    else [data[..ChunkSize]] + Chunks(data[ChunkSize..])
  }

  /** The bytes of a sequence of chunks, in order. */
  function Flatten(chunks: seq<seq<bv8>>): seq<bv8>
    decreases |chunks|
  {
    if chunks == [] then [] else chunks[0] + Flatten(chunks[1..])
  }

  /** The chunks put together give back the file. */
  lemma {:induction false} ChunksReassemble(data: seq<bv8>)
    ensures Flatten(Chunks(data)) == data
    decreases |data|
  {
    if |data| > ChunkSize {
      var rest := Chunks(data[ChunkSize..]);
      ChunksReassemble(data[ChunkSize..]);
      assert ([data[..ChunkSize]] + rest)[1..] == rest;
      assert data[..ChunkSize] + data[ChunkSize..] == data;
    } else if data != [] {
      assert [data][1..] == [];
    }
  }

  /** Every chunk holds 1 to `ChunkSize` bytes, all but the last exactly
      `ChunkSize`, and there are as many chunks as `ChunkSize`-byte blocks
      needed to hold the file. */
  lemma {:induction false} ChunkSizes(data: seq<bv8>)
    ensures forall k :: 0 <= k < |Chunks(data)| ==> 0 < |Chunks(data)[k]| <= ChunkSize
    ensures forall k :: 0 <= k < |Chunks(data)| - 1 ==> |Chunks(data)[k]| == ChunkSize
    ensures |Chunks(data)| == (|data| + ChunkSize - 1) / ChunkSize
    decreases |data|
  {
    if |data| > ChunkSize {
      var rest := Chunks(data[ChunkSize..]);
      ChunkSizes(data[ChunkSize..]);
      assert forall k :: 1 <= k < |Chunks(data)| ==> Chunks(data)[k] == rest[k - 1];
    }
  }

  /** The generator's read loop (app.py:428-434): `f.read(8192)` until it
      returns nothing, each piece yielded in turn. */
  method ReadChunks(content: seq<bv8>) returns (chunks: seq<seq<bv8>>)
    ensures chunks == Chunks(content)
  {
    chunks := [];
    var offset := 0;
    while true
      invariant offset <= |content|
      invariant Chunks(content) == chunks + Chunks(content[offset..])
      decreases |content| - offset
    {
      var end := if |content| - offset < ChunkSize then |content| else offset + ChunkSize;
      var chunk := content[offset..end];
      if chunk == [] {
        break;
      }
      var rest := content[offset..];
      if |rest| <= ChunkSize {
        assert chunk == rest && content[end..] == [];
        AppendEmpty([chunk]);
      } else {
        assert chunk == rest[..ChunkSize] && content[end..] == rest[ChunkSize..];
      }
      assert Chunks(rest) == [chunk] + Chunks(content[end..]);
      AppendAssoc(chunks, [chunk], Chunks(content[end..]));
      chunks := chunks + [chunk];
      offset := end;
    }
    AppendEmpty(chunks);
  }
}
