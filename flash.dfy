/**
 * The flash filesystem (SPIFFS) seen through the sketch's two file helpers,
 * readFile and writeFile.  The filesystem is a map from path to node; a node
 * is a regular file holding bytes (one `char` per byte) or a directory.
 * Whether the platform can open a path at all is abstracted as the set
 * `unopenable`: an open of such a path fails in every mode.
 */
module Flash {

  const NUL: char := '\0'

  datatype Node = File(data: string) | Dir

  datatype Volume = Volume(nodes: map<string, Node>, unopenable: set<string>)

  predicate NoNul(s: string) {
    forall i :: 0 <= i < |s| ==> s[i] != NUL
  }

  /** The C string a `const char *` denotes: everything before the first NUL. */
  function CString(s: string): (r: string)
    ensures r <= s
    ensures NoNul(r)
    ensures |r| < |s| ==> s[|r|] == NUL
    ensures r == s <==> NoNul(s)
  {
    if s == [] || s[0] == NUL then [] else [s[0]] + CString(s[1..])
  }

  /**
   * Appending `String((char)b)` to an Arduino String, byte by byte: the
   * one-character String is built from a NUL-terminated buffer, so a NUL
   * byte contributes nothing and every other byte is kept in order.
   */
  function DropNul(s: string): (r: string)
    ensures NoNul(r)
    ensures |r| <= |s|
    ensures NoNul(s) ==> r == s
    ensures forall c :: c != NUL ==> multiset(r)[c] == multiset(s)[c]
  {
    if s == [] then []
    else
      var init := s[..|s| - 1];
      assert s == init + [s[|s| - 1]];
      DropNul(init) + (if s[|s| - 1] == NUL then [] else [s[|s| - 1]])
  }

  /** Reading a file in two pieces reads it whole: DropNul is a filter that keeps order. */
  lemma {:induction false} DropNulAppend(a: string, b: string)
    ensures DropNul(a + b) == DropNul(a) + DropNul(b)
    decreases |b|
  {
    if b == [] {
      assert a + b == a;
    } else {
      var init := b[..|b| - 1];
      var last := b[|b| - 1];
      assert b == init + [last];
      assert a + b == (a + init) + [last];
      assert (a + b)[..|a + b| - 1] == a + init;
      DropNulAppend(a, init);
    }
  }

  /** `fs.open(path, "r")` yields a regular file. */
  predicate Readable(v: Volume, path: string) {
    path in v.nodes && path !in v.unopenable && v.nodes[path].File?
  }

  /** `fs.open(path, "w")` succeeds (and truncates or creates the file). */
  predicate WriteOpens(v: Volume, path: string) {
    path !in v.unopenable && !(path in v.nodes && v.nodes[path].Dir?)
  }

  /** What readFile returns: the file's bytes, or "" when absent, unopenable or a directory. */
  function Read(v: Volume, path: string): (r: string)
    ensures !Readable(v, path) ==> r == []
    ensures Readable(v, path) && NoNul(v.nodes[path].data) ==> r == v.nodes[path].data
    ensures NoNul(r)
  {
    if Readable(v, path) then DropNul(v.nodes[path].data) else []
  }

  /** Two volumes hold the same node (or both none) at `q`. */
  predicate Agrees(v: Volume, w: Volume, q: string) {
    (q in v.nodes <==> q in w.nodes) && (q in v.nodes ==> v.nodes[q] == w.nodes[q])
  }

  /** The volume after writeFile(path, message). */
  function Write(v: Volume, path: string, message: string): (w: Volume)
    ensures w.unopenable == v.unopenable
    ensures !WriteOpens(v, path) ==> w == v
    ensures WriteOpens(v, path) ==> Readable(w, path) && w.nodes[path].data == CString(message)
    ensures WriteOpens(v, path) ==> Read(w, path) == CString(message)
    ensures WriteOpens(v, path) && NoNul(message) ==> Read(w, path) == message
    ensures forall q :: q != path ==> Agrees(v, w, q)
    ensures forall q :: q != path ==> Read(w, q) == Read(v, q)
  {
    if WriteOpens(v, path) then v.(nodes := v.nodes[path := File(CString(message))]) else v
  }

  /** A second write to the same path replaces all of the first one. */
  lemma {:induction false} WriteOverwrites(v: Volume, path: string, a: string, b: string)
    ensures Write(Write(v, path, a), path, b) == Write(v, path, b)
  {
    if WriteOpens(v, path) {
      assert WriteOpens(Write(v, path, a), path);
      assert Write(Write(v, path, a), path, b).nodes == Write(v, path, b).nodes;
    }
  }

  /** Writes to two different paths commute. */
  lemma {:induction false} WritesCommute(v: Volume, p: string, a: string, q: string, b: string)
    requires p != q
    ensures Write(Write(v, p, a), q, b) == Write(Write(v, q, b), p, a)
  {
    if WriteOpens(v, p) && WriteOpens(v, q) {
      var np := v.nodes[p := File(CString(a))][q := File(CString(b))];
      var nq := v.nodes[q := File(CString(b))][p := File(CString(a))];
      assert np == nq;
    }
  }

  /** The flash filesystem object the sketch mutates in place. */
  class Spiffs {
    var vol: Volume

    constructor (initial: Volume)
      ensures vol == initial
    {
      vol := initial;
    }

    /** readFile: copies the open file byte by byte while bytes are available. */
    method ReadFile(path: string) returns (content: string)
      ensures content == Read(vol, path)
      ensures NoNul(content)
    {
      if !Readable(vol, path) {
        return [];
      }
      var data := vol.nodes[path].data;
      content := [];
      var pos := 0;
      while pos < |data|
        invariant 0 <= pos <= |data|
        invariant content == DropNul(data[..pos])
      {
        var b := data[pos];
        assert data[..pos + 1] == data[..pos] + [b];
        if b != NUL {
          content := content + [b];
        }
        pos := pos + 1;
      }
      assert data[..pos] == data;
    }

    /** writeFile: opens for writing (truncating) and prints the C string; nothing on open failure. */
    method WriteFile(path: string, message: string)
      modifies this
      ensures vol == Write(old(vol), path, message)
    {
      if !WriteOpens(vol, path) {
        return;
      }
      vol := vol.(nodes := vol.nodes[path := File(CString(message))]);
    }
  }
}
