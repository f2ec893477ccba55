/**
 From a JWK Set (RFC 7517, section 5) to a map from key ids to public RSA keys in PEM format.

 The PEM writer is a foreign call. It is given as a finite map from keys to texts; a key outside the map is one whose
 conversion throws.
 */
module JwkSet {
  import opened Wrappers
  import opened Json

  datatype RS256Key = RS256Key(id: string, modulus: string, exponent: string)

  type PemWriter = map<RS256Key, string>

  type Keys = map<string, string>

  // ---------- the filter ----------

  predicate ForSignatures(key: Json) {
    || StringMember(key, "use") == Some("sig")
    || StringMember(key, "key_ops") == Some("sign")
    || StringMember(key, "key_ops") == Some("verify")
  }

  predicate IsRsa(key: Json) {
    StringMember(key, "kty") == Some("RSA")
  }

  predicate NonEmptyString(key: Json, name: string) {
    StringMember(key, name).Some? && StringMember(key, name).value != ""
  }

  /** An RSA signature key whose id, modulus and exponent are non-empty strings. */
  predicate Qualifies(key: Json) {
    && ForSignatures(key)
    && IsRsa(key)
    && NonEmptyString(key, "kid") && NonEmptyString(key, "n") && NonEmptyString(key, "e")
  }

  function ToKey(key: Json): RS256Key
    requires Qualifies(key)
  {
    RS256Key(StringMember(key, "kid").value, StringMember(key, "n").value, StringMember(key, "e").value)
  }

  function QualifyingKeys(js: seq<Json>): seq<RS256Key> {
    if js == [] then []
    else QualifyingKeys(js[..|js| - 1]) + if Qualifies(js[|js| - 1]) then [ToKey(js[|js| - 1])] else []
  }

  function JwksOf(doc: Json): seq<Json> {
    match Member(doc, "keys")
    case None => []
    case Some(keys) => Elements(keys)
  }

  method ParseRS256Keys(doc: Json) returns (result: seq<RS256Key>)
    ensures result == QualifyingKeys(JwksOf(doc))
  {
    result := [];
    var keys := Member(doc, "keys");
    if keys.Some? {
      var elements := Elements(keys.value);
      for i := 0 to |elements|
        invariant result == QualifyingKeys(elements[..i])
      {
        var key := elements[i];
        assert elements[..i + 1][..i] == elements[..i];
        var use, ops := StringMember(key, "use"), StringMember(key, "key_ops");
        if !(use == Some("sig") || (ops.Some? && (ops.value == "sign" || ops.value == "verify"))) {
          continue;
        }
        if StringMember(key, "kty") != Some("RSA") {
          continue;
        }
        var kid, n, e := StringMember(key, "kid"), StringMember(key, "n"), StringMember(key, "e");
        if !(kid.Some? && n.Some? && e.Some?) {
          continue;
        }
        var k := RS256Key(kid.value, n.value, e.value);
        if k.id == "" || k.modulus == "" || k.exponent == "" {
          continue;
        }
        result := result + [k];
      }
      assert elements[..|elements|] == elements;
    }
  }

  /** `picks` are the positions of exactly the qualifying keys, in order. */
  ghost predicate PicksQualifying(js: seq<Json>, picks: seq<nat>) {
    && (forall a, b :: 0 <= a < b < |picks| ==> picks[a] < picks[b])
    && (forall a :: 0 <= a < |picks| ==> picks[a] < |js| && Qualifies(js[picks[a]]))
    && (forall i :: 0 <= i < |js| && Qualifies(js[i]) ==> i in picks)
  }

  lemma {:induction false} QualifyingKeysIsSubsequence(js: seq<Json>) returns (picks: seq<nat>)
    ensures PicksQualifying(js, picks)
    ensures |QualifyingKeys(js)| == |picks|
    ensures forall a :: 0 <= a < |picks| ==> QualifyingKeys(js)[a] == ToKey(js[picks[a]])
  {
    if js == [] {
      picks := [];
    } else {
      var n := |js| - 1;
      var rest := QualifyingKeysIsSubsequence(js[..n]);
      picks := if Qualifies(js[n]) then rest + [n] else rest;
      PicksLast(js, rest);
    }
  }

  lemma PicksLast(js: seq<Json>, rest: seq<nat>)
    requires |js| > 0 && PicksQualifying(js[..|js| - 1], rest)
    ensures PicksQualifying(js, if Qualifies(js[|js| - 1]) then rest + [|js| - 1] else rest)
  {
    assert js[..|js| - 1] + [js[|js| - 1]] == js;
    PicksSnoc(js[..|js| - 1], js[|js| - 1], rest);
  }

  lemma PicksSnoc(js: seq<Json>, j: Json, rest: seq<nat>)
    requires PicksQualifying(js, rest)
    ensures PicksQualifying(js + [j], if Qualifies(j) then rest + [|js|] else rest)
  {
    var picks := if Qualifies(j) then rest + [|js|] else rest;
    forall i | 0 <= i < |js + [j]| && Qualifies((js + [j])[i]) ensures i in picks {
      if i < |js| {
        assert i in rest;
      } else {
        assert picks[|rest|] == i;
      }
    }
  }

  /**
   The JWK `j` is an RSA key for signatures with key `k`: its type is "RSA", its use is "sig" or its only operation
   "sign" or "verify", and `k` holds its id, modulus and exponent, which are not empty.
   */
  ghost predicate IsSignatureJwk(j: Json, k: RS256Key) {
    && HasField(j, "kty", Str("RSA"))
    && (HasField(j, "use", Str("sig")) || HasField(j, "key_ops", Str("sign")) || HasField(j, "key_ops", Str("verify")))
    && HasField(j, "kid", Str(k.id)) && HasField(j, "n", Str(k.modulus)) && HasField(j, "e", Str(k.exponent))
    && k.id != "" && k.modulus != "" && k.exponent != ""
  }

  lemma QualifiesIsSignatureJwk(j: Json, k: RS256Key)
    ensures IsSignatureJwk(j, k) <==> Qualifies(j) && ToKey(j) == k
  {
    StringMemberIsField(j, "kty", "RSA");
    StringMemberIsField(j, "use", "sig");
    StringMemberIsField(j, "key_ops", "sign");
    StringMemberIsField(j, "key_ops", "verify");
    StringMemberIsField(j, "kid", k.id);
    StringMemberIsField(j, "n", k.modulus);
    StringMemberIsField(j, "e", k.exponent);
  }

  /** The JWKs that a document lists. */
  ghost predicate Lists(doc: Json, js: seq<Json>) {
    || HasField(doc, "keys", Arr(js))
    || (exists fields: seq<(string, Json)> :: HasField(doc, "keys", Obj(fields)) && |js| == |fields|
                         && forall i :: 0 <= i < |js| ==> js[i] == fields[i].1)
  }

  lemma ListedIsVisited(doc: Json, js: seq<Json>)
    requires Lists(doc, js)
    ensures JwksOf(doc) == js
  {
    if HasField(doc, "keys", Arr(js)) {
      MemberIsField(doc, "keys", Arr(js));
    } else {
      var fields: seq<(string, Json)> :| HasField(doc, "keys", Obj(fields)) && |js| == |fields|
                    && forall i :: 0 <= i < |js| ==> js[i] == fields[i].1;
      MemberIsField(doc, "keys", Obj(fields));
      assert Elements(Obj(fields)) == js;
    }
  }

  /**
   Key `keys[a]` is that of the JWK at position `picks[a]`; the positions increase, and every other JWK is none that
   qualifies.
   */
  ghost predicate KeysAt(js: seq<Json>, keys: seq<RS256Key>, picks: seq<nat>) {
    && |picks| == |keys|
    && (forall a, b :: 0 <= a < b < |picks| ==> picks[a] < picks[b])
    && (forall a :: 0 <= a < |picks| ==> picks[a] < |js| && IsSignatureJwk(js[picks[a]], keys[a]))
    && (forall i, k :: 0 <= i < |js| && IsSignatureJwk(js[i], k) ==> i in picks)
  }

  /**
   The filter in terms of the document's fields alone: the keys are, in order, those of exactly the listed JWKs that are
   RSA signature keys; any other JWK contributes nothing.
   */
  lemma ParsedKeysExactly(doc: Json, js: seq<Json>) returns (picks: seq<nat>)
    requires Lists(doc, js)
    ensures KeysAt(js, QualifyingKeys(JwksOf(doc)), picks)
  {
    ListedIsVisited(doc, js);
    picks := QualifyingKeysIsSubsequence(js);
    forall i, k | 0 <= i < |js| && IsSignatureJwk(js[i], k) ensures i in picks {
      QualifiesIsSignatureJwk(js[i], k);
    }
    var keys := QualifyingKeys(js);
    forall a | 0 <= a < |picks| ensures IsSignatureJwk(js[picks[a]], keys[a]) {
      QualifiesIsSignatureJwk(js[picks[a]], keys[a]);
    }
  }

  /** A document without a member "keys", or with null, a truth value, a number or a string there, yields no keys. */
  lemma NothingListed(doc: Json)
    requires forall v :: HasField(doc, "keys", v) ==> !v.Arr? && !v.Obj?
    ensures QualifyingKeys(JwksOf(doc)) == []
  {
    if Member(doc, "keys").Some? {
      var v := Member(doc, "keys").value;
      MemberIsField(doc, "keys", v);
      assert !v.Null? ==> JwksOf(doc) == [v] && !Qualifies(v) && QualifyingKeys([]) == [];
    }
  }

  /** The fields of an RSA key, with one that says what the key is for. */
  function RsaFields(usage: (string, string), kid: string, n: string, e: string): seq<(string, Json)> {
    [("kty", Str("RSA")), (usage.0, Str(usage.1)), ("kid", Str(kid)), ("n", Str(n)), ("e", Str(e))]
  }

  /** A document with one RSA signature key, spelled out: id, modulus and exponent arrive in their places. */
  lemma SingleKey(usage: (string, string), kid: string, n: string, e: string)
    requires usage == ("use", "sig") || usage == ("key_ops", "sign") || usage == ("key_ops", "verify")
    requires kid != "" && n != "" && e != ""
    ensures QualifyingKeys(JwksOf(Obj([("keys", Arr([Obj(RsaFields(usage, kid, n, e))]))]))) == [RS256Key(kid, n, e)]
  {
    var fields := RsaFields(usage, kid, n, e);
    var jwk := Obj(fields);
    assert FirstField(fields, 0, "kty") && FirstField(fields, 1, usage.0) && FirstField(fields, 2, "kid");
    assert FirstField(fields, 3, "n") && FirstField(fields, 4, "e");
    QualifiesIsSignatureJwk(jwk, RS256Key(kid, n, e));
    var doc := Obj([("keys", Arr([jwk]))]);
    assert FirstField(doc.fields, 0, "keys");
    MemberIsField(doc, "keys", Arr([jwk]));
    assert [jwk][..0] == [];
  }

  /** The field is missing, no string, or empty. */
  ghost predicate LacksText(j: Json, name: string) {
    forall s :: HasField(j, name, Str(s)) ==> s == ""
  }

  /** A JWK of another type or use, or without an id, a modulus or an exponent, contributes nothing anywhere. */
  lemma OtherKeysAreSkipped(before: seq<Json>, j: Json, rest: seq<Json>)
    requires || !HasField(j, "kty", Str("RSA"))
             || (&& !HasField(j, "use", Str("sig"))
                 && !HasField(j, "key_ops", Str("sign")) && !HasField(j, "key_ops", Str("verify")))
             || LacksText(j, "kid") || LacksText(j, "n") || LacksText(j, "e")
    ensures QualifyingKeys(before + [j] + rest) == QualifyingKeys(before + rest)
  {
    if Qualifies(j) {
      QualifiesIsSignatureJwk(j, ToKey(j));
      assert false;
    }
    assert [j][..0] == [] && QualifyingKeys([j]) == [];
    QualifyingKeysConcat(before + [j], rest);
    QualifyingKeysConcat(before, [j]);
    QualifyingKeysConcat(before, rest);
  }

  lemma {:induction false} QualifyingKeysConcat(a: seq<Json>, b: seq<Json>)
    ensures QualifyingKeys(a + b) == QualifyingKeys(a) + QualifyingKeys(b)
  {
    if b == [] {
      assert a + b == a;
    } else {
      QualifyingKeysConcat(a, b[..|b| - 1]);
      assert (a + b)[..|a + b| - 1] == a + b[..|b| - 1];
    }
  }

  // ---------- the fold into the map ----------

  /** Keys assigned in order into one map; a single failed conversion fails all of it. */
  function PemMap(keys: seq<RS256Key>, pem: PemWriter): Option<Keys> {
    if keys == [] then Some(map[])
    else
      var k := keys[|keys| - 1];
      match PemMap(keys[..|keys| - 1], pem)
      case None => None
      case Some(m) => if k in pem then Some(m[k.id := pem[k]]) else None
  }

  method ExtractPubKeysPEM(doc: Json, pem: PemWriter) returns (r: Option<Keys>)
    ensures r == PemMap(QualifyingKeys(JwksOf(doc)), pem)
  {
    var keys: Keys := map[];
    var parsed := ParseRS256Keys(doc);
    for i := 0 to |parsed|
      invariant PemMap(parsed[..i], pem) == Some(keys)
    {
      var key := parsed[i];
      assert parsed[..i + 1][..i] == parsed[..i];
      if key !in pem {
        PemMapFailsWhole(parsed, i, pem);
        return None;
      }
      keys := keys[key.id := pem[key]];
    }
    assert parsed[..|parsed|] == parsed;
    r := Some(keys);
  }

  lemma {:induction false} PemMapFailsWhole(keys: seq<RS256Key>, i: nat, pem: PemWriter)
    requires i < |keys| && keys[i] !in pem
    ensures PemMap(keys, pem) == None
  {
    if i < |keys| - 1 {
      PemMapFailsWhole(keys[..|keys| - 1], i, pem);
    }
  }

  ghost predicate IsLastOccurrence(keys: seq<RS256Key>, p: int) {
    0 <= p < |keys| && forall q :: p < q < |keys| ==> keys[q].id != keys[p].id
  }

  ghost predicate HasId(keys: seq<RS256Key>, id: string) {
    exists p :: 0 <= p < |keys| && keys[p].id == id
  }

  lemma {:induction false} PemMapExists(keys: seq<RS256Key>, pem: PemWriter)
    ensures PemMap(keys, pem).Some? <==> forall k :: k in keys ==> k in pem
  {
    if keys != [] {
      var n := |keys| - 1;
      PemMapExists(keys[..n], pem);
      assert forall k :: k in keys <==> k in keys[..n] || k == keys[n];
    }
  }

  lemma {:induction false} PemMapDomain(keys: seq<RS256Key>, pem: PemWriter, id: string)
    requires PemMap(keys, pem).Some?
    ensures id in PemMap(keys, pem).value <==> HasId(keys, id)
  {
    if keys != [] {
      var n := |keys| - 1;
      PemMapDomain(keys[..n], pem, id);
      if HasId(keys[..n], id) {
        var p :| 0 <= p < n && keys[..n][p].id == id;
        assert keys[p].id == id;
      }
      if keys[n].id != id && HasId(keys, id) {
        var p :| 0 <= p < |keys| && keys[p].id == id;
        assert keys[..n][p].id == id;
      }
    }
  }

  lemma {:induction false} PemMapLastWins(keys: seq<RS256Key>, pem: PemWriter, p: nat)
    requires PemMap(keys, pem).Some? && IsLastOccurrence(keys, p)
    ensures keys[p].id in PemMap(keys, pem).value && keys[p] in pem
    ensures PemMap(keys, pem).value[keys[p].id] == pem[keys[p]]
  {
    if p < |keys| - 1 {
      assert keys[|keys| - 1].id != keys[p].id;
      PemMapLastWins(keys[..|keys| - 1], pem, p);
    }
  }

  /** The first map overridden by the second, when both exist. */
  function Override(a: Option<Keys>, b: Option<Keys>): Option<Keys> {
    if a.Some? && b.Some? then Some(a.value + b.value) else None
  }

  lemma {:induction false} PemMapConcat(a: seq<RS256Key>, b: seq<RS256Key>, pem: PemWriter)
    ensures PemMap(a + b, pem) == Override(PemMap(a, pem), PemMap(b, pem))
  {
    var m := PemMap(a, pem);
    if b == [] {
      assert a + b == a;
      assert m.Some? ==> m.value + map[] == m.value;
    } else {
      var n := |b| - 1;
      var m' := PemMap(b[..n], pem);
      PemMapConcat(a, b[..n], pem);
      assert (a + b)[..|a + b| - 1] == a + b[..n];
      assert (a + b)[|a + b| - 1] == b[n];
      if m.Some? && m'.Some? && b[n] in pem {
        assert (m.value + m'.value)[b[n].id := pem[b[n]]] == m.value + m'.value[b[n].id := pem[b[n]]];
      }
    }
  }

  /** Extracting two lists of JWKs one after the other is the first extraction overridden by the second. */
  lemma ExtractionConcat(a: seq<Json>, b: seq<Json>, pem: PemWriter)
    ensures PemMap(QualifyingKeys(a + b), pem)
            == Override(PemMap(QualifyingKeys(a), pem), PemMap(QualifyingKeys(b), pem))
  {
    QualifyingKeysConcat(a, b);
    PemMapConcat(QualifyingKeys(a), QualifyingKeys(b), pem);
  }

  // ---------- provider responses ----------

  /** One call of the key set provider: it throws, returns unparsable text, or returns a document. */
  datatype Response = ProviderThrew | Unparsable | Document(doc: Json, pem: PemWriter)

  /** What a response yields: no keys at all counts as a failure. */
  function Fetch(r: Response): (keys: Option<Keys>)
  {
    match r
    case ProviderThrew => None
    case Unparsable => None
    case Document(doc, pem) =>
      match PemMap(QualifyingKeys(JwksOf(doc)), pem)
      case None => None
      case Some(keys) => if |keys| == 0 then None else Some(keys)
  }

  /**
   A fetch succeeds exactly when the provider returned a document with a qualifying key and all of these convert; the
   map then has exactly their ids, each with the text of its last key.
   */
  lemma FetchExactly(r: Response)
    ensures Fetch(r).Some? <==>
              && r.Document?
              && QualifyingKeys(JwksOf(r.doc)) != []
              && forall k :: k in QualifyingKeys(JwksOf(r.doc)) ==> k in r.pem
    ensures Fetch(r).Some? ==>
              var keys := QualifyingKeys(JwksOf(r.doc));
              && (forall id :: id in Fetch(r).value <==> HasId(keys, id))
              && (forall p :: IsLastOccurrence(keys, p) ==>
                    keys[p].id in Fetch(r).value && keys[p] in r.pem && Fetch(r).value[keys[p].id] == r.pem[keys[p]])
  {
    if r.Document? {
      var keys := QualifyingKeys(JwksOf(r.doc));
      PemMapExists(keys, r.pem);
      if PemMap(keys, r.pem).Some? {
        var m := PemMap(keys, r.pem).value;
        forall id ensures id in m <==> HasId(keys, id) {
          PemMapDomain(keys, r.pem, id);
        }
        assert keys != [] ==> HasId(keys, keys[0].id);
        assert m != map[] ==> exists id :: id in m;
        forall p | IsLastOccurrence(keys, p)
          ensures keys[p].id in m && keys[p] in r.pem && m[keys[p].id] == r.pem[keys[p]]
        {
          PemMapLastWins(keys, r.pem, p);
        }
      }
    }
  }

  /** Every id in a fetched map is a non-empty kid of a qualifying key in the document, which also converts. */
  lemma FetchedIdsQualify(r: Response, id: string)
    requires Fetch(r).Some? && id in Fetch(r).value
    ensures id != "" && r.Document?
    ensures exists j :: j in JwksOf(r.doc) && Qualifies(j) && ToKey(j).id == id && ToKey(j) in r.pem
  {
    var js := JwksOf(r.doc);
    var keys := QualifyingKeys(js);
    PemMapDomain(keys, r.pem, id);
    PemMapExists(keys, r.pem);
    var picks := QualifyingKeysIsSubsequence(js);
    var p :| 0 <= p < |keys| && keys[p].id == id;
    assert keys[p] in keys;
    var j := js[picks[p]];
    assert j in js && Qualifies(j) && ToKey(j) == keys[p];
  }

  /** With non-empty PEM texts, no fetched key is the empty string. */
  lemma FetchedPemsNonEmpty(r: Response, id: string)
    requires Fetch(r).Some? && id in Fetch(r).value
    requires r.Document? ==> forall k :: k in r.pem ==> r.pem[k] != ""
    ensures Fetch(r).value[id] != ""
  {
    PemsComeFromWriter(QualifyingKeys(JwksOf(r.doc)), r.pem, id);
  }

  lemma {:induction false} PemsComeFromWriter(keys: seq<RS256Key>, pem: PemWriter, id: string)
    requires PemMap(keys, pem).Some? && id in PemMap(keys, pem).value
    ensures exists k :: k in pem && k.id == id && pem[k] == PemMap(keys, pem).value[id]
  {
    if keys != [] {
      var k := keys[|keys| - 1];
      if k.id != id {
        PemsComeFromWriter(keys[..|keys| - 1], pem, id);
      }
    }
  }
}
