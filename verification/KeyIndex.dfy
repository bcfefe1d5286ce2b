/** The gateway's index from public-key text to device, kept under every spelling of a key. */
module KeyIndex {
  import opened Prelude
  import opened Base64

  type DeviceId = string

  /** What a key text denotes: key bytes when either engine accepts it, else only itself. */
  datatype KeyName = Key(bytes: Bytes) | Opaque(text: string)

  function NameOf(text: string): KeyName {
    if Decode(Standard, text).Some? then Key(Decode(Standard, text).value)
    else if Decode(UrlSafe, text).Some? then Key(Decode(UrlSafe, text).value)
    else Opaque(text)
  }

  lemma NameOfKey(text: string, key: Bytes)
    ensures NameOf(text) == Key(key) <==> text == Encode(Standard, key) || text == Encode(UrlSafe, key)
  {
    DecodeIff(Standard, text, key);
    DecodeIff(UrlSafe, text, key);
    if Decode(Standard, text).Some? && Decode(UrlSafe, text).Some? {
      EnginesAgree(text);
    }
  }

  function AddNew(texts: seq<string>, text: string): seq<string> {
    if text in texts then texts else texts + [text]
  }

  function AddSpellings(texts: seq<string>, decoded: Option<Bytes>): seq<string> {
    match decoded
    case None => texts
    case Some(key) => AddNew(AddNew(texts, Encode(Standard, key)), Encode(UrlSafe, key))
  }

  function Variants(text: string): seq<string> {
    AddSpellings(AddSpellings([text], Decode(Standard, text)), Decode(UrlSafe, text))
  }

  ghost predicate AllDistinct(texts: seq<string>) {
    forall i, j :: 0 <= i < j < |texts| ==> texts[i] != texts[j]
  }

  /** Pushes the two spellings of a decoded key that are not there yet. */
  method PushSpellings(variants: seq<string>, decoded: Option<Bytes>) returns (r: seq<string>)
    ensures r == AddSpellings(variants, decoded)
    ensures AllDistinct(variants) ==> AllDistinct(r)
  {
    r := variants;
    if decoded.Some? {
      var standard := Encode(Standard, decoded.value);
      if standard !in r {
        r := r + [standard];
      }
      var urlSafe := Encode(UrlSafe, decoded.value);
      if urlSafe !in r {
        r := r + [urlSafe];
      }
    }
  }

  /** The spellings pushed in the order the loop meets them. */
  method VariantsFromText(text: string) returns (variants: seq<string>)
    ensures variants == Variants(text)
    ensures forall t :: t in variants <==> NameOf(t) == NameOf(text)
    ensures AllDistinct(variants)
  {
    variants := [text];
    var engines := [Standard, UrlSafe];
    for i := 0 to 2
      invariant i == 0 ==> variants == [text]
      invariant i == 1 ==> variants == AddSpellings([text], Decode(Standard, text))
      invariant i == 2 ==> variants == Variants(text)
      invariant AllDistinct(variants)
    {
      variants := PushSpellings(variants, Decode(engines[i], text));
    }
    forall t ensures t in variants <==> NameOf(t) == NameOf(text) {
      VariantsAreSpellings(text, t);
    }
  }

  /** The variants of a text are exactly the texts that denote the same key. */
  lemma VariantsAreSpellings(text: string, other: string)
    ensures other in Variants(text) <==> NameOf(other) == NameOf(text)
  {
    match NameOf(text)
    case Key(key) =>
      NameOfKey(text, key);
      NameOfKey(other, key);
      assert forall t :: t in Variants(text) <==> t == Encode(Standard, key) || t == Encode(UrlSafe, key) by {
        VariantMembers(text, key);
      }
    case Opaque(_) =>
      assert Variants(text) == [text];
  }

  lemma VariantMembers(text: string, key: Bytes)
    requires NameOf(text) == Key(key)
    ensures forall t :: t in Variants(text) <==> t == Encode(Standard, key) || t == Encode(UrlSafe, key)
  {
    NameOfKey(text, key);
    if Decode(Standard, text).Some? && Decode(UrlSafe, text).Some? {
      EnginesAgree(text);
    }
  }

  /** Two texts share a variant only when they spell the same key. */
  lemma VariantsDisjoint(a: string, b: string)
    ensures (exists t :: t in Variants(a) && t in Variants(b)) <==> NameOf(a) == NameOf(b)
  {
    VariantsAreSpellings(a, a);
    VariantsAreSpellings(b, a);
    forall t ensures (t in Variants(a) <==> NameOf(t) == NameOf(a)) && (t in Variants(b) <==> NameOf(t) == NameOf(b)) {
      VariantsAreSpellings(a, t);
      VariantsAreSpellings(b, t);
    }
  }

  type Index = map<string, DeviceId>

  /** File `device` under every spelling of `text`. */
  ghost function Insert(index: Index, text: string, device: DeviceId): Index {
    FileAll(index, Variants(text), device)
  }

  ghost function FileAll(index: Index, texts: seq<string>, device: DeviceId): Index {
    index + map t | t in texts :: device
  }

  lemma FileOneMore(index: Index, texts: seq<string>, text: string, device: DeviceId)
    ensures FileAll(index, texts + [text], device) == FileAll(index, texts, device)[text := device]
  {
  }

  /** Every spelling of a key leads to the same answer. */
  ghost predicate SpellingBlind(index: Index) {
    forall a, b {:trigger NameOf(a), NameOf(b)} :: NameOf(a) == NameOf(b) ==> Get(index, a) == Get(index, b)
  }

  /** The text index is a map over keys: insertion answers for all spellings of its key and no other. */
  lemma InsertLookup(index: Index, text: string, device: DeviceId, query: string)
    ensures Get(Insert(index, text, device), query)
      == if NameOf(query) == NameOf(text) then Some(device) else Get(index, query)
  {
    VariantsAreSpellings(text, query);
  }

  lemma InsertKeepsBlind(index: Index, text: string, device: DeviceId)
    requires SpellingBlind(index)
    ensures SpellingBlind(Insert(index, text, device))
  {
    var after := Insert(index, text, device);
    forall a, b | NameOf(a) == NameOf(b) ensures Get(after, a) == Get(after, b) {
      InsertLookup(index, text, device, a);
      InsertLookup(index, text, device, b);
    }
  }

  /** First of `texts` that the index knows. */
  function FirstKnown(index: Index, texts: seq<string>): Option<DeviceId> {
    if |texts| == 0 then None
    else if texts[0] in index then Some(index[texts[0]])
    else FirstKnown(index, texts[1..])
  }

  /** On a spelling-blind index the order of trial does not matter. */
  lemma {:induction false} FirstKnownBlind(index: Index, texts: seq<string>, text: string)
    requires SpellingBlind(index)
    requires |texts| > 0 && forall t :: t in texts ==> NameOf(t) == NameOf(text)
    ensures FirstKnown(index, texts) == Get(index, text)
  {
    assert texts[0] in texts;
    assert NameOf(texts[0]) == NameOf(text);
    assert Get(index, texts[0]) == Get(index, text);
    if |texts| > 1 {
      FirstKnownBlind(index, texts[1..], text);
    }
  }
}
