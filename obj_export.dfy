/** The Wavefront OBJ exporter (src/exporter/obj.rs): one text file per
    model, vertex lines for positions, texture coordinates and normals, then
    one `o` section per submesh whose face lines refer to vertices by
    1-based index. Text is kept as its UTF-8 bytes. */
module ObjExport {
  import opened Wrappers
  import opened Bytes
  import Assets

  const SPACE: byte := 0x20
  const SLASH: byte := 0x2F
  const NEWLINE: byte := 0x0A
  const DIGIT_ZERO: byte := 0x30

  /** "f", "o", "v", "vt", "vn" and ".obj" in ASCII. */
  const FACE: seq<byte> := [0x66]
  const OBJECT: seq<byte> := [0x6F]
  const POSITION_PREFIX: seq<byte> := [0x76]
  const TEXTURE_PREFIX: seq<byte> := [0x76, 0x74]
  const NORMAL_PREFIX: seq<byte> := [0x76, 0x6E]
  const OBJ_EXTENSION: seq<byte> := [0x2E, 0x6F, 0x62, 0x6A]

  predicate IsDigit(c: byte)
  {
    DIGIT_ZERO <= c < DIGIT_ZERO + 10
  }

  /** `format!("{}", n)` for an unsigned integer: its decimal digits, most
      significant first, without leading zeros. */
  function Decimal(n: nat): (s: seq<byte>)
    ensures |s| >= 1 && forall k :: 0 <= k < |s| ==> IsDigit(s[k])
    ensures |s| > 1 ==> s[0] != DIGIT_ZERO
  {
    if n < 10 then [DIGIT_ZERO + n] else Decimal(n / 10) + [DIGIT_ZERO + n % 10]
  }

  /** The number a string of decimal digits spells. */
  function ParseDecimal(s: seq<byte>): nat
  {
    if |s| == 0 then 0
    else
      var c := s[|s| - 1];
      ParseDecimal(s[..|s| - 1]) * 10 + (if IsDigit(c) then c - DIGIT_ZERO else 0)
  }

  /** Reading the digits back gives the number that was written. */
  lemma {:induction false} DecimalRoundTrip(n: nat)
    ensures ParseDecimal(Decimal(n)) == n
  {
    if n >= 10 {
      DecimalRoundTrip(n / 10);
      var s := Decimal(n);
      assert s[..|s| - 1] == Decimal(n / 10);
    } else {
      assert Decimal(n)[..0] == [];
    }
  }

  /** Distinct numbers are written differently. */
  lemma DecimalInjective(m: nat, n: nat)
    requires Decimal(m) == Decimal(n)
    ensures m == n
  {
    DecimalRoundTrip(m);
    DecimalRoundTrip(n);
  }

  /** The pieces of `s` between occurrences of `sep`, as `str::split` gives
      them: an empty string yields one empty piece. */
  function Split(s: seq<byte>, sep: byte): (r: seq<seq<byte>>)
    ensures |r| >= 1
  {
    if |s| == 0 then [[]]
    else
      var rest := Split(s[1..], sep);
      if s[0] == sep then [[]] + rest else [[s[0]] + rest[0]] + rest[1..]
  }

  predicate Free(s: seq<byte>, sep: byte)
  {
    forall k :: 0 <= k < |s| ==> s[k] != sep
  }

  /** A string without the separator is one piece. */
  lemma {:induction false} SplitFree(s: seq<byte>, sep: byte)
    requires Free(s, sep)
    ensures Split(s, sep) == [s]
  {
    if |s| > 0 {
      SplitFree(s[1..], sep);
      assert [s[0]] + s[1..] == s;
    }
  }

  /** Appending a separator and a piece without one adds that piece. */
  lemma {:induction false} SplitAppend(x: seq<byte>, sep: byte, a: seq<byte>)
    requires Free(a, sep)
    ensures Split(x + [sep] + a, sep) == Split(x, sep) + [a]
  {
    if |x| == 0 {
      assert x + [sep] + a == [sep] + a;
      assert ([sep] + a)[1..] == a;
      SplitFree(a, sep);
    } else {
      assert (x + [sep] + a)[1..] == x[1..] + [sep] + a;
      SplitAppend(x[1..], sep, a);
    }
  }

  /** `write_face_part`: " v", then "/v" when texture coordinates were
      written, then "/v" when normals were, preceded by an extra "/" when no
      texture coordinates were. */
  function FacePart(textures: bool, normals: bool, value: nat): seq<byte>
  {
    var v := Decimal(value);
    [SPACE] + v + (if textures then [SLASH] + v else []) +
    (if normals then (if !textures then [SLASH] else []) + [SLASH] + v else [])
  }

  /** The slash-separated fields of a face part: "v", "v/v", "v//v" or
      "v/v/v", whichever attributes were written. */
  function PartFields(textures: bool, normals: bool, value: nat): seq<seq<byte>>
  {
    var v := Decimal(value);
    if textures && normals then [v, v, v]
    else if textures then [v, v]
    else if normals then [v, [], v]
    else [v]
  }

  /** A face part is a space and then its fields joined by slashes. */
  lemma FacePartIsJoin(textures: bool, normals: bool, value: nat)
    ensures FacePart(textures, normals, value) == [SPACE] + Join(PartFields(textures, normals, value), SLASH)
  {
    var v := Decimal(value);
    if textures && normals {
      JoinThree(v, v, v, SLASH);
    } else if textures {
      JoinPush([v], v, SLASH);
    } else if normals {
      JoinThree(v, [], v, SLASH);
    }
  }

  /** Three pieces joined: each separated from the next by one separator. */
  lemma JoinThree(a: seq<byte>, b: seq<byte>, c: seq<byte>, sep: byte)
    ensures Join([a, b, c], sep) == a + [sep] + b + [sep] + c
  {
    JoinPush([a], b, sep);
    JoinPush([a, b], c, sep);
    assert [a, b] + [c] == [a, b, c];
  }

  /** Every field of a face part is the vertex number's digits or empty, so
      an OBJ reader splitting the part on '/' recovers the number from
      every non-empty field. */
  lemma FacePartFields(textures: bool, normals: bool, value: nat)
    ensures var part := FacePart(textures, normals, value);
      |part| >= 1 && part[0] == SPACE && Split(part[1..], SLASH) == PartFields(textures, normals, value)
    ensures forall f :: f in PartFields(textures, normals, value) && f != [] ==> ParseDecimal(f) == value
  {
    FacePartIsJoin(textures, normals, value);
    FieldsParse(textures, normals, value);
    var fields := PartFields(textures, normals, value);
    assert forall k :: 0 <= k < |fields| ==> fields[k] == [] || fields[k] == Decimal(value);
    SplitJoin(fields, SLASH);
    assert FacePart(textures, normals, value)[1..] == Join(fields, SLASH);
  }

  /** One more piece adds a separator and the piece. */
  lemma JoinPush(parts: seq<seq<byte>>, last: seq<byte>, sep: byte)
    requires |parts| >= 1
    ensures Join(parts + [last], sep) == Join(parts, sep) + [sep] + last
  {
    assert (parts + [last])[..|parts|] == parts;
  }

  /** The parts of one face: each vertex index written 1-based. */
  function FaceParts(textures: bool, normals: bool, face: seq<nat>): seq<byte>
  {
    if |face| == 0 then []
    else FaceParts(textures, normals, face[..|face| - 1]) + FacePart(textures, normals, face[|face| - 1] + 1)
  }

  /** One face line: "  f", the parts, a newline. */
  function FaceLine(textures: bool, normals: bool, face: seq<nat>): seq<byte>
  {
    [SPACE, SPACE] + FACE + FaceParts(textures, normals, face) + [NEWLINE]
  }

  /** The space-separated tokens of a face line after "  f": per vertex,
      the slash-joined fields of its 1-based index. */
  function Tokens(textures: bool, normals: bool, face: seq<nat>): (r: seq<seq<byte>>)
    ensures |r| == |face|
  {
    if |face| == 0 then []
    else Tokens(textures, normals, face[..|face| - 1]) + [Join(PartFields(textures, normals, face[|face| - 1] + 1), SLASH)]
  }

  /** Token k is vertex k's fields joined by slashes. */
  lemma {:induction false} TokensAt(textures: bool, normals: bool, face: seq<nat>, k: nat)
    requires k < |face|
    ensures Tokens(textures, normals, face)[k] == Join(PartFields(textures, normals, face[k] + 1), SLASH)
  {
    if k < |face| - 1 {
      TokensAt(textures, normals, face[..|face| - 1], k);
    }
  }

  lemma FacePartsPush(head: seq<byte>, textures: bool, normals: bool, face: seq<nat>)
    requires |face| > 0
    ensures head + FaceParts(textures, normals, face) ==
      (head + FaceParts(textures, normals, face[..|face| - 1])) + FacePart(textures, normals, face[|face| - 1] + 1)
  {
  }

  lemma TokensPush(head: seq<seq<byte>>, textures: bool, normals: bool, face: seq<nat>)
    requires |face| > 0
    ensures head + Tokens(textures, normals, face) ==
      (head + Tokens(textures, normals, face[..|face| - 1])) + [Join(PartFields(textures, normals, face[|face| - 1] + 1), SLASH)]
  {
  }

  lemma EmptyFaceLine(textures: bool, normals: bool, face: seq<nat>)
    requires |face| == 0
    ensures [SPACE, SPACE] + FACE + FaceParts(textures, normals, face) ==
      Join([[], [], FACE] + Tokens(textures, normals, face), SPACE)
  {
    JoinPush([[]], [], SPACE);
    JoinPush([[], []], FACE, SPACE);
    assert [[], [], FACE] + Tokens(textures, normals, face) == [[], []] + [FACE];
  }

  /** A face line without its newline is "", "", "f" and the tokens, joined
      by spaces. */
  lemma {:induction false} FaceLineIsJoin(textures: bool, normals: bool, face: seq<nat>)
    ensures [SPACE, SPACE] + FACE + FaceParts(textures, normals, face) ==
      Join([[], [], FACE] + Tokens(textures, normals, face), SPACE)
  {
    var head: seq<seq<byte>> := [[], [], FACE];
    if |face| == 0 {
      EmptyFaceLine(textures, normals, face);
    } else {
      var init := face[..|face| - 1];
      var last := face[|face| - 1] + 1;
      var token := Join(PartFields(textures, normals, last), SLASH);
      FaceLineIsJoin(textures, normals, init);
      FacePartIsJoin(textures, normals, last);
      FacePartsPush([SPACE, SPACE] + FACE, textures, normals, face);
      TokensPush(head, textures, normals, face);
      JoinChain([SPACE, SPACE] + FACE, FaceParts(textures, normals, face), FaceParts(textures, normals, init),
        FacePart(textures, normals, last), head, Tokens(textures, normals, face), Tokens(textures, normals, init), token);
    }
  }

  /** The induction step of a face line: the line grows by one part exactly
      as its joined tokens grow by one token. */
  lemma JoinChain(h: seq<byte>, xs: seq<byte>, ys: seq<byte>, part: seq<byte>,
                  hp: seq<seq<byte>>, ts: seq<seq<byte>>, us: seq<seq<byte>>, token: seq<byte>)
    requires |hp| >= 1 && h + ys == Join(hp + us, SPACE)
    requires h + xs == (h + ys) + part && part == [SPACE] + token
    requires hp + ts == (hp + us) + [token]
    ensures h + xs == Join(hp + ts, SPACE)
  {
    JoinPush(hp + us, token, SPACE);
  }

  /** Split on spaces, a face line without its newline gives "", "" and
      "f" (from the leading "  f") and then one token per vertex. */
  lemma FaceLineTokens(textures: bool, normals: bool, face: seq<nat>)
    ensures Split([SPACE, SPACE] + FACE + FaceParts(textures, normals, face), SPACE) ==
      [[], [], FACE] + Tokens(textures, normals, face)
  {
    FaceLineIsJoin(textures, normals, face);
    TokensFree(textures, normals, face);
    var all := [[], [], FACE] + Tokens(textures, normals, face);
    assert forall k :: 0 <= k < |all| ==> Free(all[k], SPACE) by {
      forall k | 0 <= k < |all|
        ensures Free(all[k], SPACE)
      {
        if k >= 3 {
          assert all[k] == Tokens(textures, normals, face)[k - 3];
        }
      }
    }
    SplitJoin(all, SPACE);
  }

  /** No token holds a space. */
  lemma TokensFree(textures: bool, normals: bool, face: seq<nat>)
    ensures forall k :: 0 <= k < |face| ==> Free(Tokens(textures, normals, face)[k], SPACE)
  {
    forall k | 0 <= k < |face|
      ensures Free(Tokens(textures, normals, face)[k], SPACE)
    {
      TokensAt(textures, normals, face, k);
      TokenFree(textures, normals, face[k] + 1);
    }
  }

  /** Split on slashes, the token of vertex k gives the fields of its
      1-based index, and every non-empty field reads back as that index. */
  lemma TokenFields(textures: bool, normals: bool, face: seq<nat>, k: nat)
    requires k < |face|
    ensures Split(Tokens(textures, normals, face)[k], SLASH) == PartFields(textures, normals, face[k] + 1)
    ensures forall f :: f in PartFields(textures, normals, face[k] + 1) && f != [] ==> ParseDecimal(f) == face[k] + 1
  {
    TokensAt(textures, normals, face, k);
    TokenFree(textures, normals, face[k] + 1);
    FieldsParse(textures, normals, face[k] + 1);
  }

  /** Every nonempty field of a face part spells its value. */
  lemma FieldsParse(textures: bool, normals: bool, value: nat)
    ensures forall f :: f in PartFields(textures, normals, value) && f != [] ==> ParseDecimal(f) == value
  {
    DecimalRoundTrip(value);
    var fields := PartFields(textures, normals, value);
    assert forall k :: 0 <= k < |fields| ==> fields[k] == [] || fields[k] == Decimal(value);
  }

  /** A token has no space, and splits on slashes into its fields. */
  lemma TokenFree(textures: bool, normals: bool, value: nat)
    ensures var token := Join(PartFields(textures, normals, value), SLASH);
      Free(token, SPACE) && Split(token, SLASH) == PartFields(textures, normals, value)
  {
    var fields := PartFields(textures, normals, value);
    assert forall k :: 0 <= k < |fields| ==> fields[k] == [] || fields[k] == Decimal(value);
    JoinFree(fields, SLASH, SPACE);
    SplitJoin(fields, SLASH);
  }

  /** Joining pieces without a byte, by a separator other than it, gives a
      string without it. */
  lemma {:induction false} JoinFree(parts: seq<seq<byte>>, sep: byte, c: byte)
    requires sep != c && forall k :: 0 <= k < |parts| ==> Free(parts[k], c)
    ensures Free(Join(parts, sep), c)
  {
    if |parts| > 1 {
      JoinFree(parts[..|parts| - 1], sep, c);
    }
  }

  /** Writing the next part extends the parts written so far. */
  lemma FacePartsStep(textures: bool, normals: bool, face: seq<nat>, j: nat, head: seq<byte>)
    requires j < |face|
    ensures head + FaceParts(textures, normals, face[..j]) + FacePart(textures, normals, face[j] + 1) ==
      head + FaceParts(textures, normals, face[..j + 1])
  {
    assert face[..j + 1][..j] == face[..j];
  }

  lemma FaceLineAssoc(start: seq<byte>, textures: bool, normals: bool, face: seq<nat>)
    ensures start + ([SPACE, SPACE] + FACE) + FaceParts(textures, normals, face) + [NEWLINE] ==
      start + FaceLine(textures, normals, face)
  {
  }

  /** The face lines of a submesh, in face order. */
  function FaceLines(textures: bool, normals: bool, faces: seq<seq<nat>>): seq<byte>
  {
    if |faces| == 0 then []
    else FaceLines(textures, normals, faces[..|faces| - 1]) + FaceLine(textures, normals, faces[|faces| - 1])
  }

  lemma FaceLinesStep(textures: bool, normals: bool, faces: seq<seq<nat>>, i: nat, head: seq<byte>)
    requires i < |faces|
    ensures head + FaceLines(textures, normals, faces[..i]) + FaceLine(textures, normals, faces[i]) ==
      head + FaceLines(textures, normals, faces[..i + 1])
  {
    assert faces[..i + 1][..i] == faces[..i];
  }

  /** `write_faces`: "o name", then one line per face. */
  function Section(textures: bool, normals: bool, name: seq<byte>, faces: seq<seq<nat>>): seq<byte>
  {
    OBJECT + [SPACE] + name + [NEWLINE] + FaceLines(textures, normals, faces)
  }

  /** The lines `write` emits for one attribute: per element, the prefix,
      a space and its first `maxElements` formatted components joined by
      spaces. Float formatting is not modelled: `values` holds the
      formatted components. */
  function VertexLines(prefix: seq<byte>, values: seq<seq<seq<byte>>>, maxElements: nat): seq<byte>
  {
    if |values| == 0 then []
    else
      var last := values[|values| - 1];
      VertexLines(prefix, values[..|values| - 1], maxElements) + VertexLine(prefix, last, maxElements)
  }

  /** One vertex line: the prefix, a space, the first `maxElements`
      components joined by spaces, a newline. */
  function VertexLine(prefix: seq<byte>, components: seq<seq<byte>>, maxElements: nat): seq<byte>
  {
    prefix + [SPACE] + Join(Take(components, maxElements), SPACE) + [NEWLINE]
  }

  lemma VertexLinesStep(prefix: seq<byte>, values: seq<seq<seq<byte>>>, maxElements: nat, i: nat, start: seq<byte>)
    requires i < |values|
    ensures start + VertexLines(prefix, values[..i], maxElements) + VertexLine(prefix, values[i], maxElements) ==
      start + VertexLines(prefix, values[..i + 1], maxElements)
  {
    assert values[..i + 1][..i] == values[..i];
  }

  /** `iter().take(n)`. */
  function Take<T>(s: seq<T>, n: nat): (r: seq<T>)
    ensures |r| == if |s| < n then |s| else n
    ensures forall k :: 0 <= k < |r| ==> r[k] == s[k]
  {
    if |s| <= n then s else s[..n]
  }

  /** `join(sep)`. */
  function Join(parts: seq<seq<byte>>, sep: byte): seq<byte>
  {
    if |parts| == 0 then []
    else if |parts| == 1 then parts[0]
    else Join(parts[..|parts| - 1], sep) + [sep] + parts[|parts| - 1]
  }

  /** Joining pieces without the separator and splitting again gives the
      pieces back. */
  lemma {:induction false} SplitJoin(parts: seq<seq<byte>>, sep: byte)
    requires |parts| >= 1 && forall k :: 0 <= k < |parts| ==> Free(parts[k], sep)
    ensures Split(Join(parts, sep), sep) == parts
  {
    if |parts| == 1 {
      SplitFree(parts[0], sep);
    } else {
      var init := parts[..|parts| - 1];
      SplitJoin(init, sep);
      SplitAppend(Join(init, sep), sep, parts[|parts| - 1]);
      assert init + [parts[|parts| - 1]] == parts;
    }
  }

  /** What the code this model does not show supplies for one mesh: the
      formatted components of its position, texture-coordinate and normal
      views (`None` when `untyped_view_for` finds no such view), and the
      faces of each submesh as `Submesh::faces` yields them. */
  datatype Rendering = Rendering(
    positions: Option<seq<seq<seq<byte>>>>,
    textures: Option<seq<seq<seq<byte>>>>,
    normals: Option<seq<seq<seq<byte>>>>,
    faces: seq<seq<seq<nat>>>)

  /** The output of `write` for an optional view. */
  function Written(prefix: seq<byte>, view: Option<seq<seq<seq<byte>>>>, maxElements: nat): seq<byte>
  {
    if view.Some? then VertexLines(prefix, view.value, maxElements) else []
  }

  /** The sections of the submeshes, in order. */
  function Sections(textures: bool, normals: bool, submeshes: seq<Assets.Submesh>, faces: seq<seq<seq<nat>>>): seq<byte>
    requires |faces| == |submeshes|
  {
    if |submeshes| == 0 then []
    else
      Sections(textures, normals, submeshes[..|submeshes| - 1], faces[..|faces| - 1]) +
      Section(textures, normals, submeshes[|submeshes| - 1].name, faces[|faces| - 1])
  }

  lemma SectionsStep(textures: bool, normals: bool, submeshes: seq<Assets.Submesh>, faces: seq<seq<seq<nat>>>, i: nat, head: seq<byte>)
    requires |faces| == |submeshes| && i < |submeshes|
    ensures head + Sections(textures, normals, submeshes[..i], faces[..i]) + Section(textures, normals, submeshes[i].name, faces[i]) ==
      head + Sections(textures, normals, submeshes[..i + 1], faces[..i + 1])
  {
    assert submeshes[..i + 1][..i] == submeshes[..i];
    assert faces[..i + 1][..i] == faces[..i];
  }

  /** The whole text of a model's file. */
  function ModelText(mesh: Assets.Mesh, r: Rendering): seq<byte>
    requires |r.faces| == |mesh.submeshes|
  {
    Written(POSITION_PREFIX, r.positions, 4) + Written(TEXTURE_PREFIX, r.textures, 3) +
    Written(NORMAL_PREFIX, r.normals, 3) +
    Sections(r.textures.Some?, r.normals.Some?, mesh.submeshes, r.faces)
  }

  /** The text of `result` built up by the exporter. */
  class ObjWriter {
    var result: seq<byte>

    constructor ()
      ensures result == []
    {
      result := [];
    }

    method Push(s: seq<byte>)
      modifies this
      ensures result == old(result) + s
    {
      result := result + s;
    }

    /** `write_face_part`. */
    method WriteFacePart(textures: bool, normals: bool, value: nat)
      modifies this
      ensures result == old(result) + FacePart(textures, normals, value)
    {
      var v := Decimal(value);
      Push([SPACE] + v);
      if textures {
        Push([SLASH] + v);
      }
      if normals {
        if !textures {
          Push([SLASH]);
        }
        Push([SLASH] + v);
      }
    }

    /** One face line: "  f", a part per vertex, 1-based, and a newline. */
    method WriteFace(textures: bool, normals: bool, face: seq<nat>)
      modifies this
      ensures result == old(result) + FaceLine(textures, normals, face)
    {
      ghost var start := result;
      Push([SPACE, SPACE] + FACE);
      ghost var head := result;
      for j := 0 to |face|
        invariant result == head + FaceParts(textures, normals, face[..j])
      {
        WriteFacePart(textures, normals, face[j] + 1);
        FacePartsStep(textures, normals, face, j, head);
      }
      assert face[..|face|] == face;
      Push([NEWLINE]);
      FaceLineAssoc(start, textures, normals, face);
    }

    /** `write_faces`: the section header, then each face's line. */
    method WriteFaces(textures: bool, normals: bool, name: seq<byte>, faces: seq<seq<nat>>)
      modifies this
      ensures result == old(result) + Section(textures, normals, name, faces)
    {
      ghost var start := result;
      Push(OBJECT + [SPACE] + name + [NEWLINE]);
      ghost var head := result;
      for i := 0 to |faces|
        invariant result == head + FaceLines(textures, normals, faces[..i])
      {
        WriteFace(textures, normals, faces[i]);
        FaceLinesStep(textures, normals, faces, i, head);
      }
      assert faces[..|faces|] == faces;
    }

    /** `write`: when the view exists, one line per element, and `true`;
        otherwise nothing, and `false`. */
    method Write(prefix: seq<byte>, view: Option<seq<seq<seq<byte>>>>, maxElements: nat) returns (written: bool)
      modifies this
      ensures written == view.Some?
      ensures result == old(result) + Written(prefix, view, maxElements)
    {
      if view.None? {
        return false;
      }
      var values := view.value;
      ghost var start := result;
      for i := 0 to |values|
        invariant result == start + VertexLines(prefix, values[..i], maxElements)
      {
        Push(VertexLine(prefix, values[i], maxElements));
        VertexLinesStep(prefix, values, maxElements, i, start);
      }
      assert values[..|values|] == values;
      return true;
    }
  }

  /** `export_model`: positions must be there (their absence panics); the
      one file is named after the mesh with ".obj" appended. */
  method ExportModel(model: Assets.Model, r: Rendering) returns (files: Option<seq<(seq<byte>, seq<byte>)>>)
    requires |r.faces| == |model.mesh.submeshes|
    ensures files.None? <==> r.positions.None?
    ensures files.Some? ==> files.value == [(model.mesh.name + OBJ_EXTENSION, ModelText(model.mesh, r))]
  {
    var w := new ObjWriter();
    var hasPositions := w.Write(POSITION_PREFIX, r.positions, 4);
    if !hasPositions {
      return None;
    }
    assert w.result == Written(POSITION_PREFIX, r.positions, 4);
    var texturesWritten := w.Write(TEXTURE_PREFIX, r.textures, 3);
    var normalsWritten := w.Write(NORMAL_PREFIX, r.normals, 3);
    ghost var vertices := w.result;
    var submeshes := model.mesh.submeshes;
    for i := 0 to |submeshes|
      invariant w.result == vertices + Sections(texturesWritten, normalsWritten, submeshes[..i], r.faces[..i])
    {
      w.WriteFaces(texturesWritten, normalsWritten, submeshes[i].name, r.faces[i]);
      SectionsStep(texturesWritten, normalsWritten, submeshes, r.faces, i, vertices);
    }
    assert submeshes[..|submeshes|] == submeshes;
    assert r.faces[..|r.faces|] == r.faces;
    files := Some([(model.mesh.name + OBJ_EXTENSION, w.result)]);
  }

  /** Every object's rendering fits its mesh. */
  predicate Fits(objects: seq<Assets.Object>, renders: seq<Rendering>)
  {
    |renders| == |objects| &&
    forall k :: 0 <= k < |objects| ==> |renders[k].faces| == |objects[k].model.mesh.submeshes|
  }

  /** `export`: the files of every object, in object order; any object
      without positions panics. */
  method Export(asset: Assets.Asset, renders: seq<Rendering>) returns (files: Option<seq<(seq<byte>, seq<byte>)>>)
    requires Fits(asset.objects, renders)
    ensures files.None? <==> exists k :: 0 <= k < |renders| && renders[k].positions.None?
    ensures files.Some? ==> |files.value| == |asset.objects|
    ensures files.Some? ==> forall k :: 0 <= k < |asset.objects| ==>
      files.value[k] == (asset.objects[k].model.mesh.name + OBJ_EXTENSION, ModelText(asset.objects[k].model.mesh, renders[k]))
  {
    var out: seq<(seq<byte>, seq<byte>)> := [];
    for i := 0 to |asset.objects|
      invariant |out| == i
      invariant forall k :: 0 <= k < i ==> renders[k].positions.Some?
      invariant forall k :: 0 <= k < i ==>
        out[k] == (asset.objects[k].model.mesh.name + OBJ_EXTENSION, ModelText(asset.objects[k].model.mesh, renders[k]))
    {
      var model := asset.objects[i].model;
      var exported := ExportModel(model, renders[i]);
      if exported.None? {
        return None;
      }
      out := out + exported.value;
    }
    files := Some(out);
  }
}
