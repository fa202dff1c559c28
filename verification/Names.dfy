/** Names that must not collide: scope namespaces, index names and the material of a fingerprint. */
module Names {
  import opened Fields
  import opened Text

  // ---------------------------------------------------------------------------------------------
  // Namespaces: t/<tenant>/w/<workspace>
  // ---------------------------------------------------------------------------------------------

  function Namespace(tenant: string, workspace: string): string {
    Join(["t", tenant, "w", workspace], '/')
  }

  /** The migration's reading of a namespace; what is not in the canonical shape stands for itself. */
  function Decode(namespace: string): (string, string) {
    var parts := Split(namespace, '/');
    (if |parts| > 3 && parts[0] == "t" then parts[1] else namespace,
     if |parts| > 3 && parts[2] == "w" then parts[3] else namespace)
  }

  ghost predicate Canonical(namespace: string) {
    exists tenant, workspace ::
      Free(tenant, '/') && Free(workspace, '/') && namespace == Namespace(tenant, workspace)
  }

  lemma DecodeOfNamespace(tenant: string, workspace: string)
    requires Free(tenant, '/') && Free(workspace, '/')
    ensures Decode(Namespace(tenant, workspace)) == (tenant, workspace)
  {
    SplitOfJoin(["t", tenant, "w", workspace], '/');
  }

  /** Any other namespace stands for itself, in the place whose marker is missing. */
  lemma DecodeOfParts(parts: seq<string>)
    requires |parts| > 0 && forall i :: 0 <= i < |parts| ==> Free(parts[i], '/')
    ensures var namespace := Join(parts, '/');
            && Decode(namespace).0 == (if |parts| >= 4 && parts[0] == "t" then parts[1] else namespace)
            && Decode(namespace).1 == (if |parts| >= 4 && parts[2] == "w" then parts[3] else namespace)
  {
    SplitOfJoin(parts, '/');
  }

  /** Hence canonical namespaces of different workspaces never decode alike. */
  lemma CanonicalDecodesApart(a: string, b: string)
    requires Canonical(a) && Canonical(b) && Decode(a) == Decode(b)
    ensures a == b
  {
    var ta, wa :| Free(ta, '/') && Free(wa, '/') && a == Namespace(ta, wa);
    var tb, wb :| Free(tb, '/') && Free(wb, '/') && b == Namespace(tb, wb);
    DecodeOfNamespace(ta, wa);
    DecodeOfNamespace(tb, wb);
  }

  /** Decoding and encoding again is the identity on exactly the canonical namespaces. */
  lemma EncodeOfDecodeIff(namespace: string)
    ensures Namespace(Decode(namespace).0, Decode(namespace).1) == namespace <==> Canonical(namespace)
  {
    if Canonical(namespace) {
      var t, w :| Free(t, '/') && Free(w, '/') && namespace == Namespace(t, w);
      DecodeOfNamespace(t, w);
    }
    var (tenant, workspace) := Decode(namespace);
    if Namespace(tenant, workspace) == namespace {
      NamespaceIsLonger(tenant, workspace);
      JoinOfSplit(namespace, '/');
    }
  }

  lemma NamespaceIsLonger(tenant: string, workspace: string)
    ensures |Namespace(tenant, workspace)| == |tenant| + |workspace| + 5
  {
    var parts := ["t", tenant, "w", workspace];
    assert parts[1..] == [tenant, "w", workspace] && parts[1..][1..] == ["w", workspace];
    assert parts[1..][1..][1..] == [workspace];
    assert Join(["w", workspace], '/') == "w" + ['/'] + Join([workspace], '/');
    assert Join(parts[1..], '/') == tenant + ['/'] + Join(["w", workspace], '/');
  }

  /** Off the canonical shape two namespaces can decode to one workspace. */
  lemma TrailingPartsCollide(tenant: string, workspace: string, extra: string)
    requires Free(tenant, '/') && Free(workspace, '/') && Free(extra, '/')
    ensures var longer := Join(["t", tenant, "w", workspace, extra], '/');
            longer != Namespace(tenant, workspace) && Decode(longer) == Decode(Namespace(tenant, workspace))
  {
    SplitOfJoin(["t", tenant, "w", workspace, extra], '/');
    SplitOfJoin(["t", tenant, "w", workspace], '/');
  }

  // ---------------------------------------------------------------------------------------------
  // Index names
  // ---------------------------------------------------------------------------------------------

  predicate IsHexDigit(c: char) {
    '0' <= c <= '9' || 'a' <= c <= 'f'
  }

  /** `es-` and the 32 hex digits of a UUID. */
  predicate Minted(setId: string) {
    |setId| == 35 && setId[..3] == "es-" && forall i :: 3 <= i < 35 ==> IsHexDigit(setId[i])
  }

  function IndexNameFor(setId: string): string {
    "canon_chunk_vectors" + "_hnsw_" + Replace(setId, '-', '_')
  }

  /** The whole name. */
  lemma IndexNameIs(a: string)
    requires Minted(a)
    ensures IndexNameFor(a) == "canon_chunk_vectors_hnsw_es_" + a[3..]
  {
    var name := Replace(a, '-', '_');
    ReplaceAt(a, '-', '_');
    forall i | 3 <= i < 35 ensures name[i] == a[i] {
      assert IsHexDigit(a[i]);
    }
    assert a[0] == a[..3][0] && a[1] == a[..3][1] && a[2] == a[..3][2];
    assert name == "es_" + a[3..];
  }

  /** Distinct minted sets have distinct indexes, whose names fit PostgreSQL's 63 bytes. */
  lemma IndexNamesFaithful(a: string, b: string)
    requires Minted(a) && Minted(b)
    ensures IndexNameFor(a) == IndexNameFor(b) <==> a == b
    ensures |IndexNameFor(a)| == 60
  {
    MintedHasNoUnderscore(a);
    MintedHasNoUnderscore(b);
    var stem := "canon_chunk_vectors" + "_hnsw_";
    assert IndexNameFor(a)[|stem|..] == Replace(a, '-', '_');
    assert IndexNameFor(b)[|stem|..] == Replace(b, '-', '_');
    if IndexNameFor(a) == IndexNameFor(b) {
      ReplaceInjective(a, b, '-', '_');
    }
  }

  lemma MintedHasNoUnderscore(setId: string)
    requires Minted(setId)
    ensures Free(setId, '_')
  {
    forall i | 0 <= i < |setId| ensures setId[i] != '_' {
      if i < 3 { assert setId[i] == setId[..3][i]; }
    }
  }

  // ---------------------------------------------------------------------------------------------
  // Fingerprint material
  // ---------------------------------------------------------------------------------------------

  const SEPARATOR: char := '\U{001F}'

  function LowerChar(c: char): char {
    if 'A' <= c <= 'Z' then c - 'A' + 'a' else c
  }

  function Lower(s: string): string {
    if |s| == 0 then "" else [LowerChar(s[0])] + Lower(s[1..])
  }

  datatype Config = Config(provider: string, model: string, dimensions: int, endpoint: string, apiVersion: string)

  function Normalised(c: Config): Config {
    Config(Lower(Strip(c.provider)), Strip(c.model), c.dimensions, Strip(c.endpoint), Strip(c.apiVersion))
  }

  function FieldsOf(c: Config): seq<string> {
    [c.provider, c.model, Str(c.dimensions), c.endpoint, c.apiVersion]
  }

  /** What the fingerprint hashes. */
  function Material(c: Config): string {
    Join(FieldsOf(Normalised(c)), SEPARATOR)
  }

  lemma {:induction false} LowerAt(s: string)
    ensures |Lower(s)| == |s|
    ensures forall i :: 0 <= i < |s| ==> Lower(s)[i] == if 'A' <= s[i] <= 'Z' then s[i] + 32 as char else s[i]
  {
    if |s| > 0 { LowerAt(s[1..]); }
  }

  /** The five fields can be read back from the material, in this order and normalised like this. */
  lemma MaterialFields(c: Config)
    requires SeparatorFree(Normalised(c))
    ensures Split(Material(c), '\U{001F}')
            == [Lower(Strip(c.provider)), Strip(c.model), Str(c.dimensions), Strip(c.endpoint), Strip(c.apiVersion)]
  {
    StrIsSeparatorFree(c.dimensions);
    SplitOfJoin(FieldsOf(Normalised(c)), SEPARATOR);
  }

  predicate SeparatorFree(c: Config) {
    && Free(c.provider, SEPARATOR) && Free(c.model, SEPARATOR)
    && Free(c.endpoint, SEPARATOR) && Free(c.apiVersion, SEPARATOR)
  }

  /** Two configurations feed the hash alike exactly when their normalised fields agree. */
  lemma MaterialFaithful(a: Config, b: Config)
    requires SeparatorFree(Normalised(a)) && SeparatorFree(Normalised(b))
    ensures Material(a) == Material(b) <==> Normalised(a) == Normalised(b)
  {
    if Material(a) == Material(b) {
      StrIsSeparatorFree(a.dimensions);
      StrIsSeparatorFree(b.dimensions);
      var fa, fb := FieldsOf(Normalised(a)), FieldsOf(Normalised(b));
      JoinInjective(fa, fb, SEPARATOR);
      assert fa[0] == fb[0] && fa[1] == fb[1] && fa[2] == fb[2] && fa[3] == fb[3] && fa[4] == fb[4];
      StrInjective(a.dimensions, b.dimensions);
    }
  }

  lemma StrIsSeparatorFree(n: int)
    ensures Free(Str(n), SEPARATOR)
  {
    DecimalIsDigits(if n < 0 then -n else n);
  }

  /** With the separator inside a field the material does not tell where the field ends. */
  lemma SeparatorInFieldCollides()
    ensures exists a, b :: Normalised(a) != Normalised(b) && Material(a) == Material(b)
  {
    var sep := [SEPARATOR];
    var a := Config("p", "m", 7, "e" + sep + "v", "w");
    var b := Config("p", "m", 7, "e", "v" + sep + "w");
    StripKeeps(a.endpoint);
    StripKeeps(b.endpoint);
    StripKeeps(a.apiVersion);
    StripKeeps(b.apiVersion);
    var x, y := FieldsOf(Normalised(a)), FieldsOf(Normalised(b));
    TailsJoinAlike(x, y);
  }

  lemma TailsJoinAlike(x: seq<string>, y: seq<string>)
    requires |x| == |y| == 5 && x[..3] == y[..3]
    requires x[3] + [SEPARATOR] + x[4] == y[3] + [SEPARATOR] + y[4]
    ensures Join(x, SEPARATOR) == Join(y, SEPARATOR)
  {
    assert x[3..][1..] == [x[4]] && y[3..][1..] == [y[4]];
    assert Join(x[3..], SEPARATOR) == Join(y[3..], SEPARATOR);
    assert x[2..][1..] == x[3..] && y[2..][1..] == y[3..] && x[..3][2] == y[..3][2];
    assert Join(x[2..], SEPARATOR) == Join(y[2..], SEPARATOR);
    assert x[1..][1..] == x[2..] && y[1..][1..] == y[2..] && x[..3][1] == y[..3][1];
    assert Join(x[1..], SEPARATOR) == Join(y[1..], SEPARATOR);
    assert x[..3][0] == y[..3][0];
  }
}
