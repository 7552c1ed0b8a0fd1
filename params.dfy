/**
 * The DIGEST-MD5 response parameters and their parser
 * (`digestMD5Parameters`, `setParameter`, `parseParameters`).
 *
 * The decoded payload is split on `,`; each piece is split at its first `=`
 * into a key and a value; one leading and one trailing `"` are stripped from
 * the value; the value goes to the field the key names. Unknown keys are
 * dropped and a later piece with the same key overwrites an earlier one.
 */
module DigestParams {
  import opened Wrappers
  import opened Text

  /** The fields of the parameter set, one per recognised key. */
  datatype Field =
    | Username | Realm | Nonce | CNonce | NC | Qop
    | ServType | DigestURI | Response | Charset | AuthID

  /** Every field once, in the order of the source's struct. */
  const AllFields: seq<Field> :=
    [Username, Realm, Nonce, CNonce, NC, Qop, ServType, DigestURI, Response, Charset, AuthID]

  /** The wire key of each field. */
  function KeyName(f: Field): string
  {
    match f
    case Username => "username"
    case Realm => "realm"
    case Nonce => "nonce"
    case CNonce => "cnonce"
    case NC => "nc"
    case Qop => "qop"
    case ServType => "serv-type"
    case DigestURI => "digest-uri"
    case Response => "response"
    case Charset => "charset"
    case AuthID => "authzid"
  }

  /** Distinct fields have distinct keys. */
  lemma KeyNameInjective(f: Field, g: Field)
    requires KeyName(f) == KeyName(g)
    ensures f == g
  {
    assert |KeyName(f)| == |KeyName(g)| && KeyName(f)[0] == KeyName(g)[0];
  }

  /** The first field of `fields` whose key is `key`, if any. */
  function FindField(fields: seq<Field>, key: string): (r: Option<Field>)
  {
    if fields == [] then None
    else if KeyName(fields[0]) == key then Some(fields[0])
    else FindField(fields[1..], key)
  }

  /** The field a wire key names, if any: the table of the source's `switch`. */
  function FieldOf(key: string): Option<Field>
  {
    FindField(AllFields, key)
  }

  lemma {:induction false} FindFieldFinds(fields: seq<Field>, key: string, f: Field)
    requires f in fields
    ensures FindField(fields, key) == Some(f) <==> key == KeyName(f)
  {
    if fields[0] != f {
      FindFieldFinds(fields[1..], key, f);
      if KeyName(fields[0]) == key && key == KeyName(f) {
        KeyNameInjective(fields[0], f);
      }
    } else if KeyName(fields[0]) != key {
      assert FindField(fields, key) == FindField(fields[1..], key);
      FindFieldSound(fields[1..], key);
    }
  }

  lemma {:induction false} FindFieldSound(fields: seq<Field>, key: string)
    ensures FindField(fields, key).Some? ==> KeyName(FindField(fields, key).value) == key
  {
    if fields != [] && KeyName(fields[0]) != key {
      FindFieldSound(fields[1..], key);
    }
  }

  /** FieldOf and KeyName are inverse: a key names a field exactly when it is that field's key. */
  lemma FieldOfKeyName(key: string, f: Field)
    ensures FieldOf(key) == Some(f) <==> key == KeyName(f)
  {
    assert f == AllFields[FieldIndex(f)];
    FindFieldFinds(AllFields, key, f);
  }

  /**
   * The value of a parameter set: the string each field holds. A field
   * that was never set holds the empty string.
   */
  datatype ParamValues = ParamValues(fields: map<Field, string>)
  {
    function Get(f: Field): string
    {
      if f in fields then fields[f] else ""
    }

    /** The same parameters with field `f` overwritten by `v`. */
    function Set(f: Field, v: string): ParamValues
    {
      ParamValues(fields[f := v])
    }
  }

  /** The zero value of `digestMD5Parameters`: every field empty. */
  const Empty := ParamValues(map[
    Username := "", Realm := "", Nonce := "", CNonce := "", NC := "", Qop := "",
    ServType := "", DigestURI := "", Response := "", Charset := "", AuthID := ""])

  /** The key of one `key=value` piece. */
  function KeyOf(piece: string): string
  {
    SplitKeyAndValue(piece, '=').0
  }

  /** The value of one `key=value` piece, as written. */
  function RawValueOf(piece: string): string
  {
    SplitKeyAndValue(piece, '=').1
  }

  /** Strips one leading and then one trailing double quote, where present. */
  function Unquote(v: string): string
  {
    TrimSuffix(TrimPrefix(v, "\""), "\"")
  }

  /** A value in quotes loses exactly those two quotes, whatever it holds. */
  lemma UnquoteQuoted(s: string)
    ensures Unquote(Quote(s)) == s
  {
    var q := Quote(s);
    assert HasPrefix(q, "\"") && q[1..] == s + "\"";
    assert HasSuffix(s + "\"", "\"") && (s + "\"")[..|s|] == s;
  }

  /** A value with no quote at either end is kept as it is. */
  lemma UnquoteBare(v: string)
    requires v == [] || (v[0] != '"' && v[|v| - 1] != '"')
    ensures Unquote(v) == v
  {
  }

  /** What one piece asks for: a field and the value to store in it. */
  datatype Setting = Setting(field: Field, value: string)

  /**
   * `setParameter`'s reading of one piece: the field its key names and its
   * unquoted value, or nothing when the key is not recognised.
   */
  function Entry(piece: string): Option<Setting>
  {
    match FieldOf(KeyOf(piece))
    case None => None
    case Some(f) => Some(Setting(f, Unquote(RawValueOf(piece))))
  }

  /** A piece asks for field `f` exactly when its key is `f`'s key. */
  lemma EntryNamesField(piece: string, f: Field)
    ensures Entry(piece).Some? && Entry(piece).value.field == f <==> KeyOf(piece) == KeyName(f)
    ensures Entry(piece).Some? ==> Entry(piece).value.value == Unquote(RawValueOf(piece))
  {
    FieldOfKeyName(KeyOf(piece), f);
  }

  /** A piece whose key is not recognised asks for nothing. */
  lemma UnknownKeyIgnored(piece: string)
    requires forall f :: KeyName(f) != KeyOf(piece)
    ensures Entry(piece) == None
  {
    if FieldOf(KeyOf(piece)).Some? {
      FieldOfKeyName(KeyOf(piece), FieldOf(KeyOf(piece)).value);
    }
  }

  /** The effect of one piece on the parameter set. */
  function Apply(v: ParamValues, e: Option<Setting>): ParamValues
  {
    match e
    case None => v
    case Some(s) => v.Set(s.field, s.value)
  }

  /** The parameter set after every piece has been applied, first to last. */
  function ApplyAll(entries: seq<Option<Setting>>): ParamValues
  {
    if entries == [] then Empty
    else Apply(ApplyAll(entries[..|entries| - 1]), entries[|entries| - 1])
  }

  /** `read` applied to each element, in order. */
  function MapSeq<A, B>(read: A -> B, xs: seq<A>): (ys: seq<B>)
    ensures |ys| == |xs|
  {
    if xs == [] then [] else MapSeq(read, xs[..|xs| - 1]) + [read(xs[|xs| - 1])]
  }

  lemma {:induction false} MapSeqAt<A, B>(read: A -> B, xs: seq<A>, k: nat)
    requires k < |xs|
    ensures MapSeq(read, xs)[k] == read(xs[k])
  {
    var n := |xs| - 1;
    if k < n {
      MapSeqAt(read, xs[..n], k);
      assert xs[..n][k] == xs[k];
    }
  }

  lemma MapSeqFive<A, B>(read: A -> B, a: A, b: A, c: A, d: A, e: A)
    ensures MapSeq(read, [a, b, c, d, e]) == [read(a), read(b), read(c), read(d), read(e)]
  {
    assert [a][..0] == [];
    assert MapSeq(read, [a]) == [read(a)];
    assert [a, b][..1] == [a];
    assert MapSeq(read, [a, b]) == [read(a), read(b)];
    assert [a, b, c][..2] == [a, b];
    assert MapSeq(read, [a, b, c]) == [read(a), read(b), read(c)];
    assert [a, b, c, d][..3] == [a, b, c];
    assert MapSeq(read, [a, b, c, d]) == [read(a), read(b), read(c), read(d)];
    assert [a, b, c, d, e][..4] == [a, b, c, d];
  }

  /** Mapping one more element appends its image. */
  lemma MapSeqSnoc<A, B>(read: A -> B, xs: seq<A>, i: nat)
    requires i < |xs|
    ensures MapSeq(read, xs[..i + 1]) == MapSeq(read, xs[..i]) + [read(xs[i])]
  {
    assert xs[..i + 1][..i] == xs[..i];
  }

  /** The reading of each piece, in order. */
  function Entries(pieces: seq<string>): (es: seq<Option<Setting>>)
    ensures |es| == |pieces|
  {
    MapSeq(Entry, pieces)
  }

  /** Applying one more entry. */
  lemma ApplyAllSnoc(es: seq<Option<Setting>>, e: Option<Setting>)
    ensures ApplyAll(es + [e]) == Apply(ApplyAll(es), e)
  {
    assert (es + [e])[..|es|] == es;
  }

  /** `parseParameters` on a value. */
  function Parse(payload: string): ParamValues
  {
    ApplyAll(Entries(Split(payload, ',')))
  }

  predicate SetsField(e: Option<Setting>, f: Field)
  {
    e.Some? && e.value.field == f
  }

  /** One entry changes the field it asks for and no other. */
  lemma ApplyGet(v: ParamValues, e: Option<Setting>, f: Field)
    ensures Apply(v, e).Get(f) == if SetsField(e, f) then e.value.value else v.Get(f)
  {
  }

  /** The last entry that asks for a field decides that field. */
  lemma {:induction false} LastEntryWins(es: seq<Option<Setting>>, f: Field, i: nat)
    requires i < |es| && SetsField(es[i], f)
    requires forall j :: i < j < |es| ==> !SetsField(es[j], f)
    ensures ApplyAll(es).Get(f) == es[i].value.value
  {
    var n := |es| - 1;
    var prefix := es[..n];
    if i < n {
      assert forall j :: i < j < |prefix| ==> prefix[j] == es[j];
      LastEntryWins(prefix, f, i);
    }
  }

  /** A field that no entry asks for stays empty. */
  lemma {:induction false} UnaskedFieldStaysEmpty(es: seq<Option<Setting>>, f: Field)
    requires forall j :: 0 <= j < |es| ==> !SetsField(es[j], f)
    ensures ApplyAll(es).Get(f) == ""
  {
    if es != [] {
      var n := |es| - 1;
      assert forall j :: 0 <= j < n ==> es[..n][j] == es[j];
      UnaskedFieldStaysEmpty(es[..n], f);
    }
  }

  /**
   * The last piece that carries a field's key decides that field: its value,
   * unquoted, is what the parser keeps, whatever earlier pieces said.
   */
  lemma LastOccurrenceWins(pieces: seq<string>, f: Field, i: nat)
    requires i < |pieces| && KeyOf(pieces[i]) == KeyName(f)
    requires forall j :: i < j < |pieces| ==> KeyOf(pieces[j]) != KeyName(f)
    ensures ApplyAll(Entries(pieces)).Get(f) == Unquote(RawValueOf(pieces[i]))
  {
    var es := Entries(pieces);
    forall j | i <= j < |pieces|
      ensures SetsField(es[j], f) <==> KeyOf(pieces[j]) == KeyName(f)
    {
      MapSeqAt(Entry, pieces, j);
      EntryNamesField(pieces[j], f);
    }
    MapSeqAt(Entry, pieces, i);
    EntryNamesField(pieces[i], f);
    LastEntryWins(es, f, i);
  }

  /** A field whose key no piece carries stays empty. */
  lemma AbsentKeyStaysEmpty(pieces: seq<string>, f: Field)
    requires forall j :: 0 <= j < |pieces| ==> KeyOf(pieces[j]) != KeyName(f)
    ensures ApplyAll(Entries(pieces)).Get(f) == ""
  {
    var es := Entries(pieces);
    forall j | 0 <= j < |pieces|
      ensures !SetsField(es[j], f)
    {
      MapSeqAt(Entry, pieces, j);
      EntryNamesField(pieces[j], f);
    }
    UnaskedFieldStaysEmpty(es, f);
  }

  /** A value in double quotes. */
  function Quote(v: string): string
  {
    "\"" + v + "\""
  }

  /** How a client writes one field: `key="value"`. */
  function RenderPiece(f: Field, v: string): string
  {
    KeyName(f) + ['='] + Quote(v)
  }

  function RenderPieces(p: ParamValues): (pieces: seq<string>)
    ensures |pieces| == |AllFields|
  {
    seq(|AllFields|, k requires 0 <= k < |AllFields| => RenderPiece(AllFields[k], p.Get(AllFields[k])))
  }

  /** A client's payload carrying every field of `p`, quoted, comma-separated. */
  function Render(p: ParamValues): string
  {
    Join(RenderPieces(p), ',')
  }

  /** A piece `key=value` whose key holds no `=` splits back into that key and value. */
  lemma KeyValueSplits(key: string, v: string)
    requires '=' !in key
    ensures KeyOf(key + ['='] + v) == key
    ensures RawValueOf(key + ['='] + v) == v
  {
    IndexOfAfterPrefix(key, '=', v);
    var piece := key + ['='] + v;
    assert piece[..|key|] == key;
    assert piece[|key| + 1..] == v;
  }

  lemma KeyOfRendered(f: Field, v: string)
    ensures KeyOf(RenderPiece(f, v)) == KeyName(f)
    ensures RawValueOf(RenderPiece(f, v)) == Quote(v)
  {
    KeyNameIsPlain(f);
    KeyValueSplits(KeyName(f), Quote(v));
  }

  /** The parser reads a rendered piece as its field and value. */
  lemma RenderPieceEntry(f: Field, v: string)
    ensures Entry(RenderPiece(f, v)) == Some(Setting(f, v))
  {
    KeyOfRendered(f, v);
    FieldOfKeyName(KeyName(f), f);
    UnquoteQuoted(v);
  }

  /** No key holds `=` or `,`. */
  lemma KeyNameIsPlain(f: Field)
    ensures '=' !in KeyName(f) && ',' !in KeyName(f)
  {
  }

  /** The position of a field in AllFields. */
  function FieldIndex(f: Field): (i: nat)
    ensures i < |AllFields| && AllFields[i] == f
  {
    match f
    case Username => 0
    case Realm => 1
    case Nonce => 2
    case CNonce => 3
    case NC => 4
    case Qop => 5
    case ServType => 6
    case DigestURI => 7
    case Response => 8
    case Charset => 9
    case AuthID => 10
  }

  /** AllFields lists each field once. */
  lemma FieldIndexUnique(j: nat)
    requires j < |AllFields|
    ensures FieldIndex(AllFields[j]) == j
  {
  }

  lemma RenderedPiecesCommaFree(p: ParamValues)
    requires forall f :: ',' !in p.Get(f)
    ensures forall k :: 0 <= k < |RenderPieces(p)| ==> ',' !in RenderPieces(p)[k]
  {
    forall k | 0 <= k < |AllFields|
      ensures ',' !in RenderPieces(p)[k]
    {
      var f := AllFields[k];
      KeyNameIsPlain(f);
      assert RenderPieces(p)[k] == KeyName(f) + ['='] + ("\"" + p.Get(f) + "\"");
    }
  }

  /** The parser reads each rendered piece as the field it renders and that field's value. */
  lemma RenderedEntry(p: ParamValues, j: nat)
    requires j < |AllFields|
    ensures Entry(RenderPieces(p)[j]) == Some(Setting(AllFields[j], p.Get(AllFields[j])))
  {
    RenderPieceEntry(AllFields[j], p.Get(AllFields[j]));
  }

  lemma ParseRenderedField(p: ParamValues, f: Field)
    ensures ApplyAll(Entries(RenderPieces(p))).Get(f) == p.Get(f)
  {
    var es := Entries(RenderPieces(p));
    var i := FieldIndex(f);
    forall j | i <= j < |es|
      ensures es[j] == Some(Setting(AllFields[j], p.Get(AllFields[j])))
    {
      MapSeqAt(Entry, RenderPieces(p), j);
      RenderedEntry(p, j);
    }
    forall j | i < j < |es|
      ensures !SetsField(es[j], f)
    {
      FieldIndexUnique(j);
    }
    LastEntryWins(es, f, i);
  }

  /**
   * The parser reads back every field of a payload a client renders, as long
   * as no value holds a comma (the parser does not look inside quotes).
   */
  lemma ParseRender(p: ParamValues)
    requires forall f :: ',' !in p.Get(f)
    ensures forall f :: Parse(Render(p)).Get(f) == p.Get(f)
  {
    var pieces := RenderPieces(p);
    RenderedPiecesCommaFree(p);
    SplitJoin(pieces, ',');
    forall f
      ensures Parse(Render(p)).Get(f) == p.Get(f)
    {
      ParseRenderedField(p, f);
    }
  }

  /** `digestMD5Parameters`: the parser fills it in place, field by field. */
  class Parameters {
    var username: string
    var realm: string
    var nonce: string
    var cnonce: string
    var nc: string
    var qop: string
    var servType: string
    var digestURI: string
    var response: string
    var charset: string
    var authID: string

    /** The string field `f` holds. */
    function Get(f: Field): string
      reads this
    {
      match f
      case Username => username
      case Realm => realm
      case Nonce => nonce
      case CNonce => cnonce
      case NC => nc
      case Qop => qop
      case ServType => servType
      case DigestURI => digestURI
      case Response => response
      case Charset => charset
      case AuthID => authID
    }

    /** The fields as a value, for the functions that read them. */
    function Values(): (v: ParamValues)
      reads this
      ensures forall f :: v.Get(f) == Get(f)
    {
      ParamValues(map[
        Username := username, Realm := realm, Nonce := nonce, CNonce := cnonce,
        NC := nc, Qop := qop, ServType := servType, DigestURI := digestURI,
        Response := response, Charset := charset, AuthID := authID])
    }

    /** `&digestMD5Parameters{}`: every field empty. */
    constructor ()
      ensures forall f :: Get(f) == ""
    {
      username, realm, nonce, cnonce, nc, qop := "", "", "", "", "", "";
      servType, digestURI, response, charset, authID := "", "", "", "", "";
    }

    /** One arm of `setParameter`'s `switch`: field `f` takes `val`, the others keep theirs. */
    method Store(f: Field, val: string)
      modifies this
      ensures Get(f) == val
      ensures forall g :: g != f ==> Get(g) == old(Get(g))
    {
      match f
      case Username => username := val;
      case Realm => realm := val;
      case Nonce => nonce := val;
      case CNonce => cnonce := val;
      case NC => nc := val;
      case Qop => qop := val;
      case ServType => servType := val;
      case DigestURI => digestURI := val;
      case Response => response := val;
      case Charset => charset := val;
      case AuthID => authID := val;
    }

    /**
     * `setParameter`: stores the unquoted value in the field the key names
     * and ignores a key it does not know; FieldOf is the table of its `switch`.
     */
    method SetParameter(p: string)
      modifies this
      ensures forall f :: Get(f) == if SetsField(Entry(p), f) then Entry(p).value.value else old(Get(f))
    {
      var kv := SplitKeyAndValue(p, '=');
      var key, val := kv.0, kv.1;
      val := TrimPrefix(val, "\"");
      val := TrimSuffix(val, "\"");
      match FieldOf(key)
      case Some(f) => Store(f, val);
      case None =>
    }
  }

  /**
   * The loop of `parseParameters`: every piece in turn goes to `setParameter`
   * of a parameter set that starts empty.
   */
  method SetAll(params: Parameters, pieces: seq<string>)
    requires forall f :: params.Get(f) == ""
    modifies params
    ensures forall f :: params.Get(f) == ApplyAll(Entries(pieces)).Get(f)
  {
    ghost var acc := Empty;
    var i := 0;
    while i < |pieces|
      invariant 0 <= i <= |pieces|
      invariant acc == ApplyAll(Entries(pieces[..i]))
      invariant forall f :: params.Get(f) == acc.Get(f)
    {
      params.SetParameter(pieces[i]);
      forall f
        ensures params.Get(f) == Apply(acc, Entry(pieces[i])).Get(f)
      {
        ApplyGet(acc, Entry(pieces[i]), f);
      }
      MapSeqSnoc(Entry, pieces, i);
      ApplyAllSnoc(Entries(pieces[..i]), Entry(pieces[i]));
      acc := Apply(acc, Entry(pieces[i]));
      i := i + 1;
    }
    assert pieces[..|pieces|] == pieces;
  }

  /** `parseParameters`: a fresh parameter set filled from every comma-separated piece. */
  method ParseParameters(str: string) returns (params: Parameters)
    ensures fresh(params)
    ensures forall f :: params.Get(f) == Parse(str).Get(f)
  {
    params := new Parameters();
    var s := Split(str, ',');
    SetAll(params, s);
  }
}
