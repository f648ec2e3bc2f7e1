/** The `select` parameter: `key:v1,v2:key2:v3` or a JSON object of arrays. */
module SelectCodec {
  import opened JsValues
  import opened Features
  import opened Text

  /** A character of the class the format check accepts. */
  predicate Accepted(c: char) {
    || 'a' <= c <= 'z' || 'A' <= c <= 'Z' || '0' <= c <= '9'
    || c in {'_', '+', '.', '-', '\\', '(', ')'} || Space(c)
  }

  /** The text starts with accepted characters, a colon and an accepted character. */
  predicate WellFormed(text: string) {
    exists i | 0 < i < |text| - 1 :: HeadAt(text, i)
  }

  /** `text[i]` is a colon between accepted characters. */
  predicate HeadAt(text: string, i: nat)
    requires i < |text| - 1
  {
    text[i] == ':' && Accepted(text[i + 1]) && forall k | 0 <= k < i :: Accepted(text[k])
  }

  function Values(piece: string): set<Value> {
    set v | v in Split(piece, ',') :: Str(v)
  }

  /** Keys and values alternate; a key without a value text is skipped, a later
      entry for a key wins. */
  function FromPieces(pieces: seq<string>): Selected {
    if |pieces| < 2 then map[]
    else (if pieces[1] != "" then map[pieces[0] := Values(pieces[1])] else map[]) + FromPieces(pieces[2..])
  }

  function FromText(text: string): Option<Selected> {
    if WellFormed(text) then Some(FromPieces(Split(text, ':'))) else None
  }

  /** An object of JSON: `None` for a member that is not an array. */
  type JsonObject = map<string, Option<seq<Value>>>

  function FromJson(json: JsonObject): Selected {
    map key | key in json && json[key].Some? :: set v | v in json[key].value
  }

  /** A later value text for a key replaces an earlier one, unless it is empty. */
  lemma {:induction false} LaterWins(pieces: seq<string>, key: string, text: string)
    requires |pieces| % 2 == 0
    ensures var s, s1 := FromPieces(pieces), FromPieces(pieces + [key, text]);
            && (text == "" ==> s1 == s)
            && (text != "" ==> s1 == s[key := set v | v in Split(text, ',') :: Str(v)])
  {
    if pieces == [] {
      assert pieces + [key, text] == [key, text] && [key, text][2..] == [];
    } else {
      LaterWins(pieces[2..], key, text);
      assert (pieces + [key, text])[2..] == pieces[2..] + [key, text];
      OverrideTail(if pieces[1] != "" then map[pieces[0] := Values(pieces[1])] else map[], FromPieces(pieces[2..]),
                   key, Values(text));
    }
  }

  lemma OverrideTail(a: Selected, b: Selected, key: string, values: set<Value>)
    ensures (a + b)[key := values] == a + b[key := values]
  {
  }

  /** The loop over a JSON object: members that are not arrays are passed over. */
  method ReadJson(json: JsonObject) returns (result: Selected)
    ensures forall key :: key in result <==> key in json && json[key].Some?
    ensures forall key <- result :: forall v :: v in result[key] <==> v in json[key].value
    ensures result == FromJson(json)
  {
    result := map[];
    var keys := json.Keys;
    while keys != {}
      invariant keys <= json.Keys
      invariant forall key :: key in result <==> key in json.Keys - keys && json[key].Some?
      invariant forall key <- result :: result[key] == set v | v in json[key].value
      decreases |keys|
    {
      var key :| key in keys;
      if json[key].Some? {
        result := result[key := set v | v in json[key].value];
      }
      keys := keys - {key};
    }
  }

  /** keySetObject: `json` is what JSON.parse makes of the input, if it is an object. */
  method KeySetObject(json: Option<JsonObject>, text: Option<string>) returns (r: Option<Selected>)
    ensures r == if json.Some? then Some(FromJson(json.value))
                 else if text.Some? then FromText(text.value) else None
  {
    if json.Some? {
      var selected := ReadJson(json.value);
      return Some(selected);
    }
    if text.None? || !WellFormed(text.value) {
      return None;
    }
    var result := ReadPieces(Split(text.value, ':'));
    return Some(result);
  }

  lemma FromPiecesAt(pieces: seq<string>, i: nat)
    requires i + 1 < |pieces|
    ensures FromPieces(pieces[i..])
            == (if pieces[i + 1] != "" then map[pieces[i] := Values(pieces[i + 1])] else map[])
               + FromPieces(pieces[i + 2..])
  {
    assert pieces[i..][2..] == pieces[i + 2..];
  }

  lemma Override(a: Selected, key: string, values: set<Value>, b: Selected)
    ensures a + (map[key := values] + b) == a[key := values] + b
  {
  }

  method ReadPieces(pieces: seq<string>) returns (result: Selected)
    ensures result == FromPieces(pieces)
  {
    result := map[];
    var i := 0;
    while i + 1 < |pieces|
      invariant 0 <= i <= |pieces|
      invariant result + FromPieces(pieces[i..]) == FromPieces(pieces)
    {
      FromPiecesAt(pieces, i);
      ghost var rest := FromPieces(pieces[i + 2..]);
      if pieces[i + 1] != "" {
        Override(result, pieces[i], Values(pieces[i + 1]), rest);
        result := result[pieces[i] := Values(pieces[i + 1])];
      } else {
        assert map[] + rest == rest;
      }
      i := i + 2;
    }
    assert FromPieces(pieces[i..]) == map[];
  }

  /** `Array.from` of a set, in some order. */
  method ArrayFrom(s: set<Value>) returns (values: seq<Value>)
    ensures (set v | v in values) == s
  {
    values := [];
    var rest := s;
    while rest != {}
      invariant rest <= s && forall v :: v in s <==> v in values || v in rest
      decreases |rest|
    {
      var v :| v in rest;
      values, rest := values + [v], rest - {v};
    }
  }

  /** jsonFromKeySetObject: each set becomes an array of its members, in some
      order, so reading it back gives the selection. */
  method JsonFromKeySetObject(selected: Selected) returns (json: JsonObject)
    ensures json.Keys == selected.Keys
    ensures forall key <- selected :: json[key].Some? && (set v | v in json[key].value) == selected[key]
    ensures FromJson(json) == selected
  {
    json := map[];
    var keys := selected.Keys;
    while keys != {}
      invariant keys <= selected.Keys && json.Keys == selected.Keys - keys
      invariant forall key <- json :: json[key].Some? && (set v | v in json[key].value) == selected[key]
      decreases |keys|
    {
      var key :| key in keys;
      var values := ArrayFrom(selected[key]);
      json := json[key := Some(values)];
      keys := keys - {key};
    }
  }

  // ---------------------------------------------------------------- the text format

  datatype Entry = Entry(key: string, values: seq<string>)

  function Pieces(entries: seq<Entry>): seq<string> {
    if entries == [] then [] else [entries[0].key, Join(entries[0].values, ',')] + Pieces(entries[1..])
  }

  function ToText(entries: seq<Entry>): string {
    Join(Pieces(entries), ':')
  }

  /** The selection the entries stand for. */
  function Meaning(entries: seq<Entry>): Selected {
    if entries == [] then map[]
    else map[entries[0].key := set v | v in entries[0].values :: Str(v)] + Meaning(entries[1..])
  }

  /** Separators occur only as separators, and no key is given twice. */
  predicate Printable(entries: seq<Entry>) {
    && (forall e <- entries :: ':' !in e.key && forall v <- e.values :: ':' !in v && ',' !in v)
    && (forall i, j | 0 <= i < j < |entries| :: entries[i].key != entries[j].key)
  }

  /** The entry has a value text at all: its values are not `[]` and not `[""]`. */
  predicate Written(e: Entry) {
    Join(e.values, ',') != ""
  }

  /** What the format check sees of a printed selection. */
  predicate HeadAccepted(entries: seq<Entry>) {
    && entries != [] && entries[0].key != "" && Written(entries[0])
    && (forall c <- entries[0].key :: Accepted(c))
    && Accepted(Join(entries[0].values, ',')[0])
  }

  lemma {:induction false} JoinFree(parts: seq<string>, c: char, d: char)
    requires d != c && forall p <- parts :: d !in p
    ensures d !in Join(parts, c)
  {
    if |parts| == 1 {
      assert parts[0] in parts;
    } else if parts != [] {
      assert parts[0] in parts;
      JoinFree(parts[1..], c, d);
    }
  }

  lemma {:induction false} PiecesFree(entries: seq<Entry>)
    requires Printable(entries)
    ensures forall p <- Pieces(entries) :: ':' !in p
  {
    if entries != [] {
      assert entries[0] in entries;
      assert entries == [entries[0]] + entries[1..];
      PiecesFree(entries[1..]);
      JoinFree(entries[0].values, ',', ':');
    }
  }

  lemma {:induction false} MeaningKeys(entries: seq<Entry>)
    ensures forall k :: k in Meaning(entries) <==> exists e <- entries :: e.key == k
    ensures forall k :: k in FromPieces(Pieces(entries)) ==> exists e <- entries :: e.key == k && Written(e)
  {
    if entries != [] {
      assert entries == [entries[0]] + entries[1..];
      assert Pieces(entries)[2..] == Pieces(entries[1..]);
      MeaningKeys(entries[1..]);
    }
  }

  lemma {:induction false} PiecesMeaning(entries: seq<Entry>)
    requires Printable(entries)
    ensures FromPieces(Pieces(entries)) == Meaning(entries) <==> forall e <- entries :: Written(e)
  {
    if entries != [] {
      var e, rest := entries[0], entries[1..];
      assert entries == [e] + rest;
      PiecesMeaning(rest);
      assert Pieces(entries)[2..] == Pieces(rest);
      MeaningKeys(rest);
      MeaningKeys(entries);
      assert e.key !in Meaning(rest) && e.key !in FromPieces(Pieces(rest));
      if Written(e) {
        SplitJoin(e.values, ',');
        SameTail(e.key, Values(Join(e.values, ',')), FromPieces(Pieces(rest)), Meaning(rest));
      } else {
        assert e.key in Meaning(entries) && e.key !in FromPieces(Pieces(entries));
      }
    }
  }

  lemma SameTail(key: string, values: set<Value>, a: Selected, b: Selected)
    requires key !in a && key !in b
    ensures map[key := values] + a == map[key := values] + b <==> a == b
  {
    var m := map[key := values];
    assert (m + a) - {key} == a && (m + b) - {key} == b;
  }

  /** The first key is followed by a colon and then by the first character of its values, by
      the next colon, or by nothing. */
  lemma PrintedText(entries: seq<Entry>)
    requires Printable(entries) && entries != []
    ensures var key, values, text := entries[0].key, Join(entries[0].values, ','), ToText(entries);
            && |text| > |key| && text[..|key|] == key && text[|key|] == ':' && ':' !in key
            && (if values != "" then |text| > |key| + 1 && text[|key| + 1] == values[0]
                else |text| > |key| + 1 ==> text[|key| + 1] == ':')
  {
    var key, values := entries[0].key, Join(entries[0].values, ',');
    var pieces, text := Pieces(entries), ToText(entries);
    PiecesFree(entries);
    assert pieces[0] == key && pieces[1] == values && key in pieces;
    var tail := Join(pieces[1..], ':');
    assert text == key + [':'] + tail;
    assert tail == if |pieces| == 2 then values else values + [':'] + Join(pieces[2..], ':');
  }

  lemma PrintedHead(entries: seq<Entry>)
    requires Printable(entries)
    ensures WellFormed(ToText(entries)) <==> HeadAccepted(entries)
  {
    if entries != [] {
      var key, text := entries[0].key, ToText(entries);
      PrintedText(entries);
      assert forall k | 0 <= k < |key| :: text[k] == text[..|key|][k] == key[k];
      if WellFormed(text) {
        var i :| 0 < i < |text| - 1 && HeadAt(text, i);
        assert i >= |key|;
        assert i <= |key|;
      }
      if HeadAccepted(entries) {
        assert HeadAt(text, |key|);
      }
    }
  }

  /** Parsing the text of a selection gives the selection back exactly when its first
      key and value pass the format check and every column has a value text. */
  lemma SelectRoundTrip(entries: seq<Entry>)
    requires Printable(entries)
    ensures FromText(ToText(entries)) == Some(Meaning(entries))
            <==> HeadAccepted(entries) && forall e <- entries :: Written(e)
  {
    PrintedHead(entries);
    PiecesMeaning(entries);
    PiecesFree(entries);
    if entries != [] {
      SplitJoin(Pieces(entries), ':');
    }
  }

  /** The two formats agree: text and JSON of one selection are read as the same. */
  lemma FormatsAgree(entries: seq<Entry>, json: JsonObject)
    requires Printable(entries) && HeadAccepted(entries) && forall e <- entries :: Written(e)
    requires json.Keys == Meaning(entries).Keys
    requires forall key <- json :: json[key].Some? && (set v | v in json[key].value) == Meaning(entries)[key]
    ensures FromText(ToText(entries)) == Some(FromJson(json))
  {
    SelectRoundTrip(entries);
    assert FromJson(json) == Meaning(entries);
  }
}
