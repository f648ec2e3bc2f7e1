/** The viewport in the address bar: written by updateHistory, read back by
    getViewportParams and initViewState. */
module Viewport {
  import opened JsValues
  import opened Decimals
  import opened Text

  /** A numeric member of the merged viewport and settings, or a setting that is a text or absent. */
  datatype UrlVar = Reading(key: string, value: real) | Setting(key: string, text: Option<string>)

  /** The number that is printed for a member. */
  function AsPrinted(v: UrlVar): real
    requires v.Reading?
  {
    if v.key == "latitude" || v.key == "longitude" then Fixed(v.value, Three)
    else if v.key == "zoom" then Fixed(v.value, Two)
    else v.value
  }

  /** How the runtime prints and reads numbers; `fixed` is `toFixed`. */
  datatype Printer = Printer(js: Runtime, fixed: (real, Places) -> string) {

    /** If the member is a number that is shown, its text reads back as the number printed
        and holds no separator. */
    predicate Faithful(v: UrlVar) {
      var p := ShowVar(this, v);
      v.Reading? && p.Some? ==> '&' !in p.value.text && js.textNumber(p.value.text) == Some(AsPrinted(v))
    }
  }

  /** A `name=value` pair of the search string. */
  datatype Param = Param(name: string, text: string)

  const SETTINGS: set<string> := {"defaultURL", "geographyURL", "geographyColumn"}

  function ShowVar(pr: Printer, v: UrlVar): Option<Param> {
    if v.Reading? then
      if v.key == "latitude" then Some(Param("lat", pr.fixed(v.value, Three)))
      else if v.key == "longitude" then Some(Param("lng", pr.fixed(v.value, Three)))
      else if v.key == "zoom" then Some(Param("zoom", pr.fixed(v.value, Two)))
      else if v.key == "bearing" then Some(Param("bea", pr.js.numberText(v.value)))
      else if v.key == "pitch" then Some(Param("pit", pr.js.numberText(v.value)))
      else if v.key == "altitude" then Some(Param("alt", pr.js.numberText(v.value)))
      else None
    else if v.key in SETTINGS && v.text.Some? then Some(Param(v.key, v.text.value))
    else None
  }

  /** The pairs that are printed. */
  function Shown(pr: Printer, vars: seq<UrlVar>): seq<Param> {
    if vars == [] then []
    else (if ShowVar(pr, vars[0]).Some? then [ShowVar(pr, vars[0]).value] else []) + Shown(pr, vars[1..])
  }

  function Printed(p: Param): string {
    p.name + "=" + p.text
  }

  function PrintedAll(ps: seq<Param>): seq<string> {
    if ps == [] then [] else [Printed(ps[0])] + PrintedAll(ps[1..])
  }

  function SearchText(ps: seq<Param>): string {
    if ps == [] then "" else "?" + Join(PrintedAll(ps), '&')
  }

  /** The pairs with a separator after each. */
  function Ended(ps: seq<Param>): string {
    if ps == [] then "" else Printed(ps[0]) + "&" + Ended(ps[1..])
  }

  lemma {:induction false} EndedJoin(ps: seq<Param>)
    requires ps != []
    ensures Ended(ps) == Join(PrintedAll(ps), '&') + "&"
  {
    if |ps| > 1 {
      EndedJoin(ps[1..]);
    }
  }

  lemma ShownFrom(pr: Printer, vars: seq<UrlVar>, i: nat)
    requires i < |vars|
    ensures Ended(Shown(pr, vars[i..])) == Shown1(pr, vars[i]) + Ended(Shown(pr, vars[i + 1..]))
  {
    assert vars[i..][0] == vars[i] && vars[i..][1..] == vars[i + 1..];
    if ShowVar(pr, vars[i]).Some? {
      EndedFront(ShowVar(pr, vars[i]).value, Shown(pr, vars[i + 1..]));
    } else {
      assert [] + Shown(pr, vars[i + 1..]) == Shown(pr, vars[i + 1..]);
    }
  }

  lemma EndedFront(p: Param, rest: seq<Param>)
    ensures Ended([p] + rest) == (Printed(p) + "&") + Ended(rest)
  {
    assert ([p] + rest)[1..] == rest;
  }

  /** What one member adds to the search string. */
  function Shown1(pr: Printer, v: UrlVar): string {
    if ShowVar(pr, v).Some? then Printed(ShowVar(pr, v).value) + "&" else ""
  }

  /** updateHistory: the pairs are printed one by one with a `&` after each, and the last
      character is taken off. */
  method UpdateHistory(pr: Printer, vars: seq<UrlVar>) returns (search: string)
    ensures search == SearchText(Shown(pr, vars))
  {
    search := "?";
    ghost var all := Ended(Shown(pr, vars));
    for i := 0 to |vars|
      invariant search + Ended(Shown(pr, vars[i..])) == "?" + all
      invariant search != ""
    {
      ShownFrom(pr, vars, i);
      Shifted(search, Shown1(pr, vars[i]), Ended(Shown(pr, vars[i + 1..])));
      search := search + Shown1(pr, vars[i]);
    }
    assert vars[|vars|..] == [];
    assert search == "?" + all;
    SearchEnd(Shown(pr, vars));
    search := search[..|search| - 1];
  }

  lemma SearchEnd(ps: seq<Param>)
    ensures ("?" + Ended(ps))[..|Ended(ps)|] == SearchText(ps)
  {
    if ps != [] {
      EndedJoin(ps);
    }
  }

  /** For any members there is a printer that is faithful to them. */
  lemma FaithfulPrinter(vars: seq<UrlVar>) returns (pr: Printer)
    ensures forall v <- vars :: pr.Faithful(v)
  {
    var numbers := Numbers(vars);
    var text := (x: real) => Unary(numbers, x);
    var read := (s: string) => if |s| < |numbers| then Some(numbers[|s|]) else None;
    pr := Printer(Runtime(text, read), (x, p) => Unary(numbers, Fixed(x, p)));
    forall v | v in vars && v.Reading?
      ensures pr.Faithful(v)
    {
      NumbersListed(vars, v);
      UnaryReads(numbers, AsPrinted(v));
    }
  }

  function Numbers(vars: seq<UrlVar>): seq<real> {
    if vars == [] then []
    else (if vars[0].Reading? then [AsPrinted(vars[0])] else []) + Numbers(vars[1..])
  }

  lemma {:induction false} NumbersListed(vars: seq<UrlVar>, v: UrlVar)
    requires v in vars && v.Reading?
    ensures AsPrinted(v) in Numbers(vars)
  {
    if vars[0] != v {
      assert v in vars[1..];
      NumbersListed(vars[1..], v);
    }
  }

  /** As many strokes as there are numbers before `x`. */
  function Unary(numbers: seq<real>, x: real): string {
    if numbers == [] || numbers[0] == x then "" else "1" + Unary(numbers[1..], x)
  }

  lemma {:induction false} UnaryReads(numbers: seq<real>, x: real)
    requires x in numbers
    ensures var s := Unary(numbers, x); |s| < |numbers| && numbers[|s|] == x && '&' !in s
  {
    if numbers[0] != x {
      assert x in numbers[1..];
      UnaryReads(numbers[1..], x);
    }
  }

  // ---------------------------------------------------------------- reading a search string

  /** One part of a search string: the name goes up to the first `=`. */
  function ReadPart(part: string): Param {
    if part == "" then Param("", "")
    else if part[0] == '=' then Param("", part[1..])
    else
      var rest := ReadPart(part[1..]);
      Param([part[0]] + rest.name, rest.text)
  }

  function ReadParts(parts: seq<string>): seq<Param> {
    if parts == [] then [] else [ReadPart(parts[0])] + ReadParts(parts[1..])
  }

  function Parse(text: string): seq<Param> {
    ReadParts(Split(text, '&'))
  }

  /** The texts given for a name. */
  function Named(ps: seq<Param>, name: string): seq<string> {
    if ps == [] then [] else (if ps[0].name == name then [ps[0].text] else []) + Named(ps[1..], name)
  }

  /** A name given twice is read as an array, which is not a number. */
  function NumberOf(js: Runtime, ps: seq<Param>, name: string): Option<real> {
    if |Named(ps, name)| == 1 then js.textNumber(Named(ps, name)[0]) else None
  }

  /** `search.replace("?", "")` */
  function Unmark(s: string): string {
    if s == "" then "" else if s[0] == '?' then s[1..] else [s[0]] + Unmark(s[1..])
  }

  function OrElse(n: Option<real>, other: real): real {
    if n.Some? && n.value != 0.0 then n.value else other
  }

  datatype View = View(latitude: real, longitude: real, zoom: real, pit: real, bea: real, alt: real)

  /** getViewportParams: zoom and angles are read with the leading question mark left on,
      which then belongs to the first name. An empty search string has no view. */
  function ViewOf(js: Runtime, search: string): Option<View> {
    if search == "" then None
    else
      var ps, marked := Parse(Unmark(search)), Parse(search);
      var lat, lng := NumberOf(js, ps, "lat"), NumberOf(js, ps, "lng");
      Some(View(if lat.Some? then Fixed(lat.value, Three) else LATITUDE,
                if lng.Some? then Fixed(lng.value, Three) else LONGITUDE,
                OrElse(NumberOf(js, marked, "zoom"), 10.0),
                OrElse(NumberOf(js, marked, "pit"), 55.0),
                OrElse(NumberOf(js, marked, "bea"), 0.0),
                OrElse(NumberOf(js, marked, "alt"), 1.5)))
  }

  const LATITUDE := 53.8321
  const LONGITUDE := -1.6362

  const DECKGL_INIT: map<string, real> :=
    map["longitude" := LONGITUDE, "latitude" := LATITUDE, "zoom" := 10.0, "pitch" := 55.0, "bearing" := 0.0]

  /** One parameter of the URL: it is stored under its own name if some member's name starts with it. */
  function Store(init: map<string, real>, name: string, value: real): map<string, real> {
    if exists k <- init :: name <= k then init[name := value] else init
  }

  function StoreView(init: map<string, real>, v: View): map<string, real> {
    Store(Store(Store(Store(Store(Store(init, "latitude", v.latitude), "longitude", v.longitude), "zoom", v.zoom),
          "pit", v.pit), "bea", v.bea), "alt", v.alt)
  }

  /** initViewState, given the shared defaults; `flat` is whether the layer name asks for no pitch. */
  function InitView(defaults: map<string, real>, viewport: map<string, real>, view: Option<View>, flat: bool)
    : map<string, real>
  {
    var merged := defaults + viewport;
    var stored := if view.Some? then StoreView(merged, view.value) else merged;
    if flat then stored["pitch" := 0.0] else stored
  }

  /** The defaults are one module-wide object that every call writes into. */
  class ViewDefaults {
    var init: map<string, real>

    constructor ()
      ensures init == DECKGL_INIT
    {
      init := DECKGL_INIT;
    }

    method InitViewState(js: Runtime, viewport: map<string, real>, search: string, flat: bool)
      returns (view: map<string, real>)
      modifies this
      ensures view == init == InitView(old(init), viewport, ViewOf(js, search), flat)
      ensures old(init).Keys <= init.Keys
    {
      init := init + viewport;
      var param := ViewOf(js, search);
      if param.Some? {
        var v := param.value;
        var pairs := [("latitude", v.latitude), ("longitude", v.longitude), ("zoom", v.zoom),
                      ("pit", v.pit), ("bea", v.bea), ("alt", v.alt)];
        StoreAll(init, v, pairs);
        init := StorePairs(init, pairs);
      }
      if flat {
        init := init["pitch" := 0.0];
      }
      view := init;
    }
  }

  /** The loop over the parameters of the URL. */
  method StorePairs(init: map<string, real>, pairs: seq<(string, real)>) returns (r: map<string, real>)
    ensures r == StoreFirst(init, pairs, |pairs|) && init.Keys <= r.Keys
  {
    r := init;
    for i := 0 to |pairs|
      invariant r == StoreFirst(init, pairs, i) && init.Keys <= r.Keys
    {
      r := Store(r, pairs[i].0, pairs[i].1);
    }
  }

  function StoreFirst(init: map<string, real>, pairs: seq<(string, real)>, n: nat): map<string, real>
    requires n <= |pairs|
  {
    if n == 0 then init else Store(StoreFirst(init, pairs, n - 1), pairs[n - 1].0, pairs[n - 1].1)
  }

  lemma StoreAll(init: map<string, real>, v: View, pairs: seq<(string, real)>)
    requires pairs == [("latitude", v.latitude), ("longitude", v.longitude), ("zoom", v.zoom),
                       ("pit", v.pit), ("bea", v.bea), ("alt", v.alt)]
    ensures StoreFirst(init, pairs, 6) == StoreView(init, v)
  {
    assert StoreFirst(init, pairs, 1) == Store(init, "latitude", v.latitude);
    assert StoreFirst(init, pairs, 2) == Store(StoreFirst(init, pairs, 1), "longitude", v.longitude);
    assert StoreFirst(init, pairs, 3) == Store(StoreFirst(init, pairs, 2), "zoom", v.zoom);
    assert StoreFirst(init, pairs, 4) == Store(StoreFirst(init, pairs, 3), "pit", v.pit);
    assert StoreFirst(init, pairs, 5) == Store(StoreFirst(init, pairs, 4), "bea", v.bea);
  }

  // ---------------------------------------------------------------- what comes back

  predicate DistinctKeys(vars: seq<UrlVar>) {
    forall i, j | 0 <= i < j < |vars| :: vars[i].key != vars[j].key
  }

  lemma {:induction false} ReadPartsConcat(a: seq<string>, b: seq<string>)
    ensures ReadParts(a + b) == ReadParts(a) + ReadParts(b)
  {
    if a == [] {
      assert a + b == b;
    } else {
      ReadPartsConcat(a[1..], b);
      assert (a + b)[1..] == a[1..] + b;
    }
  }

  lemma {:induction false} NamedConcat(a: seq<Param>, b: seq<Param>, name: string)
    ensures Named(a + b, name) == Named(a, name) + Named(b, name)
  {
    if a == [] {
      assert a + b == b;
    } else {
      NamedConcat(a[1..], b, name);
      assert (a + b)[0] == a[0] && (a + b)[1..] == a[1..] + b;
      Shifted(if a[0].name == name then [a[0].text] else [], Named(a[1..], name), Named(b, name));
    }
  }

  lemma Shifted<T>(x: seq<T>, y: seq<T>, z: seq<T>)
    ensures x + (y + z) == (x + y) + z
  {
  }

  predicate PlainName(name: string) {
    '=' !in name && '&' !in name
  }

  lemma {:induction false} ReadPrinted(name: string, text: string)
    requires '=' !in name
    ensures ReadPart(name + "=" + text) == Param(name, text)
  {
    var part := name + "=" + text;
    if name == "" {
      assert part[1..] == text;
    } else {
      assert name[0] in name;
      ReadPrinted(name[1..], text);
      assert part[1..] == name[1..] + "=" + text;
      assert name == [name[0]] + name[1..];
    }
  }

  /** The pairs as printed, each text up to its first `&`. */
  function Heads(ps: seq<Param>): seq<Param> {
    if ps == [] then [] else [Param(ps[0].name, Split(ps[0].text, '&')[0])] + Heads(ps[1..])
  }

  /** The pairs that the texts bring in behind an `&`. */
  function Further(ps: seq<Param>): seq<Param> {
    if ps == [] then [] else ReadParts(Split(ps[0].text, '&')[1..]) + Further(ps[1..])
  }

  /** `all` has the texts of `a` and of `b` for the name, in some order. */
  predicate Merged(all: seq<Param>, a: seq<Param>, b: seq<Param>, name: string) {
    && |Named(all, name)| == |Named(a, name)| + |Named(b, name)|
    && (Named(a, name) == [] ==> Named(all, name) == Named(b, name))
    && (Named(b, name) == [] ==> Named(all, name) == Named(a, name))
  }

  lemma ParseOne(p: Param)
    requires PlainName(p.name)
    ensures Parse(Printed(p)) == Heads([p]) + Further([p])
  {
    var parts := Split(p.text, '&');
    SplitPrefix(p.name + "=", p.text, '&');
    ReadPrinted(p.name, parts[0]);
    ReadPartsConcat([p.name + "=" + parts[0]], parts[1..]);
    assert Heads([p]) == [Param(p.name, parts[0])];
    assert Further([p]) == ReadParts(parts[1..]);
  }

  lemma ParseConcat(a: string, b: string)
    ensures Parse(a + ['&'] + b) == Parse(a) + Parse(b)
  {
    SplitAt(a, b, '&');
    ReadPartsConcat(Split(a, '&'), Split(b, '&'));
  }

  lemma MergedConcat(all: seq<Param>, a: seq<Param>, b: seq<Param>,
                     all': seq<Param>, a': seq<Param>, b': seq<Param>, name: string)
    requires Merged(all, a, b, name) && Merged(all', a', b', name)
    ensures Merged(all + all', a + a', b + b', name)
  {
    NamedConcat(all, all', name);
    NamedConcat(a, a', name);
    NamedConcat(b, b', name);
  }

  lemma {:induction false} ParsePrinted(ps: seq<Param>, name: string)
    requires ps != [] && forall p <- ps :: PlainName(p.name)
    ensures Merged(Parse(Join(PrintedAll(ps), '&')), Heads(ps), Further(ps), name)
  {
    var p, rest := ps[0], ps[1..];
    assert p in ps && ps == [p] + rest;
    ParseOne(p);
    NamedConcat(Heads([p]), Further([p]), name);
    if rest == [] {
      assert ps == [p];
    } else {
      ParsePrinted(rest, name);
      var tail := Join(PrintedAll(rest), '&');
      ParseConcat(Printed(p), tail);
      MergedConcat(Parse(Printed(p)), Heads([p]), Further([p]), Parse(tail), Heads(rest), Further(rest), name);
      assert Heads(ps) == Heads([p]) + Heads(rest);
      assert Further([p]) == ReadParts(Split(p.text, '&')[1..]);
    }
  }

  /** Each parameter name is printed for one member only. */
  function KeyOf(name: string): string {
    if name == "lat" then "latitude" else if name == "lng" then "longitude" else if name == "bea" then "bearing"
    else if name == "pit" then "pitch" else if name == "alt" then "altitude" else name
  }

  lemma ShownKey(pr: Printer, v: UrlVar)
    requires ShowVar(pr, v).Some?
    ensures KeyOf(ShowVar(pr, v).value.name) == v.key
  {
  }

  lemma ShownWord(pr: Printer, v: UrlVar)
    requires ShowVar(pr, v).Some?
    ensures forall c <- ShowVar(pr, v).value.name :: 'a' <= c <= 'z' || 'A' <= c <= 'Z'
  {
    var name := ShowVar(pr, v).value.name;
    if v.Reading? {
      assert name == "lat" || name == "lng" || name == "zoom" || name == "bea" || name == "pit" || name == "alt";
    } else {
      assert name == "defaultURL" || name == "geographyURL" || name == "geographyColumn";
    }
  }

  lemma ShownName(pr: Printer, v: UrlVar)
    requires ShowVar(pr, v).Some?
    ensures var name := ShowVar(pr, v).value.name;
            KeyOf(name) == v.key && PlainName(name) && '?' !in name
  {
    ShownKey(pr, v);
    ShownWord(pr, v);
  }

  lemma {:induction false} ShownNames(pr: Printer, vars: seq<UrlVar>)
    ensures forall p <- Shown(pr, vars) :: PlainName(p.name)
  {
    if vars != [] {
      ShownNames(pr, vars[1..]);
      if ShowVar(pr, vars[0]).Some? {
        ShownName(pr, vars[0]);
      }
    }
  }

  lemma {:induction false} Unshown(pr: Printer, vars: seq<UrlVar>, name: string)
    requires forall v <- vars :: v.key != KeyOf(name)
    ensures Named(Heads(Shown(pr, vars)), name) == []
  {
    if vars != [] {
      Unshown(pr, vars[1..], name);
      assert vars[0] in vars;
      HeadsFront(pr, vars, name);
      if ShowVar(pr, vars[0]).Some? {
        ShownName(pr, vars[0]);
      }
    }
  }

  lemma HeadsFront(pr: Printer, vars: seq<UrlVar>, name: string)
    requires vars != []
    ensures var p := ShowVar(pr, vars[0]);
            Named(Heads(Shown(pr, vars)), name)
            == (if p.Some? && p.value.name == name then [Split(p.value.text, '&')[0]] else [])
               + Named(Heads(Shown(pr, vars[1..])), name)
  {
    var p, rest := ShowVar(pr, vars[0]), Shown(pr, vars[1..]);
    if p.Some? {
      assert ([p.value] + rest)[1..] == rest;
      assert Heads([p.value] + rest) == [Param(p.value.name, Split(p.value.text, '&')[0])] + Heads(rest);
      NamedConcat([Param(p.value.name, Split(p.value.text, '&')[0])], Heads(rest), name);
    } else {
      assert [] + rest == rest;
    }
  }

  lemma {:induction false} ShownOnce(pr: Printer, vars: seq<UrlVar>, v: UrlVar)
    requires DistinctKeys(vars) && v in vars && ShowVar(pr, v).Some?
    ensures var p := ShowVar(pr, v).value;
            Named(Heads(Shown(pr, vars)), p.name) == [Split(p.text, '&')[0]]
  {
    var p := ShowVar(pr, v).value;
    ShownName(pr, v);
    HeadsFront(pr, vars, p.name);
    var i :| 0 <= i < |vars| && vars[i] == v;
    if i == 0 {
      forall u | u in vars[1..]
        ensures u.key != v.key
      {
        var j :| 0 <= j < |vars[1..]| && vars[1..][j] == u;
        assert vars[j + 1] == u;
      }
      Unshown(pr, vars[1..], p.name);
    } else {
      assert vars[1..][i - 1] == v && vars[0].key != v.key;
      ShownOnce(pr, vars[1..], v);
      if ShowVar(pr, vars[0]).Some? {
        ShownName(pr, vars[0]);
      }
    }
  }

  /** The pairs with the question mark in the first name. */
  function Marked(ps: seq<Param>): seq<Param>
    requires ps != []
  {
    [Param("?" + ps[0].name, ps[0].text)] + ps[1..]
  }

  lemma MarkedText(ps: seq<Param>)
    requires ps != []
    ensures SearchText(ps) == Join(PrintedAll(Marked(ps)), '&')
    ensures Unmark(SearchText(ps)) == Join(PrintedAll(ps), '&')
    ensures Further(Marked(ps)) == Further(ps) && Heads(Marked(ps))[1..] == Heads(ps)[1..]
  {
    var m := Marked(ps);
    assert m[1..] == ps[1..];
    assert Printed(m[0]) == "?" + Printed(ps[0]);
  }

  function First(pr: Printer, vars: seq<UrlVar>): string {
    if Shown(pr, vars) == [] then "" else Shown(pr, vars)[0].name
  }

  /** The pairs that setting texts bring into the search string. */
  function Foreign(pr: Printer, vars: seq<UrlVar>): seq<Param> {
    Further(Shown(pr, vars))
  }

  /** Some setting text brings in a pair of that name. */
  predicate Clash(pr: Printer, vars: seq<UrlVar>, name: string) {
    Named(Foreign(pr, vars), name) != []
  }

  /** Without an `&` in the settings nothing clashes. */
  lemma {:induction false} NoClash(pr: Printer, vars: seq<UrlVar>)
    requires forall v <- vars :: pr.Faithful(v)
    requires forall v <- vars :: v.Setting? && v.text.Some? ==> '&' !in v.text.value
    ensures Foreign(pr, vars) == []
  {
    if vars != [] {
      NoClash(pr, vars[1..]);
      var p, rest := ShowVar(pr, vars[0]), Shown(pr, vars[1..]);
      assert vars[0] in vars;
      if p.Some? {
        SplitPlain(p.value.text, '&');
        assert ([p.value] + rest)[1..] == rest;
      } else {
        assert [] + rest == rest;
      }
    }
  }

  /** The number read for a printed member, without and with the question mark: it is
      lost if a setting brings in another one, and with the question mark also if it was
      printed first, in which case the setting's is taken for it. */
  lemma NumberReadBack(pr: Printer, vars: seq<UrlVar>, v: UrlVar)
    requires DistinctKeys(vars) && v in vars && ShowVar(pr, v).Some? && '&' !in ShowVar(pr, v).value.text
    ensures var p, search := ShowVar(pr, v).value, SearchText(Shown(pr, vars));
            var n := if Clash(pr, vars, p.name) then None else pr.js.textNumber(p.text);
            && search != ""
            && NumberOf(pr.js, Parse(Unmark(search)), p.name) == n
            && NumberOf(pr.js, Parse(search), p.name)
               == if First(pr, vars) == p.name then NumberOf(pr.js, Foreign(pr, vars), p.name) else n
  {
    var p, ps := ShowVar(pr, v).value, Shown(pr, vars);
    ShownOnce(pr, vars, v);
    SplitPlain(p.text, '&');
    assert ps != [];
    MarkedText(ps);
    ShownNames(pr, vars);
    ShownName(pr, v);
    assert ps[0] in ps;
    ParsePrinted(ps, p.name);
    forall q | q in Marked(ps)
      ensures PlainName(q.name)
    {
      assert q in ps[1..] ==> q in ps;
    }
    ParsePrinted(Marked(ps), p.name);
    assert Named(Heads(Marked(ps)), p.name) == Named(Heads(ps)[1..], p.name);
    assert Named(Heads(ps), p.name)
        == (if ps[0].name == p.name then [Heads(ps)[0].text] else []) + Named(Heads(ps)[1..], p.name);
  }

  /** A setting that is a text is printed under its name, and read back up to its first `&`
      unless another setting clashes with it. */
  lemma SettingReadBack(pr: Printer, vars: seq<UrlVar>, key: string, text: string)
    requires DistinctKeys(vars) && Setting(key, Some(text)) in vars
    requires key == "defaultURL" || key == "geographyURL" || key == "geographyColumn"
    ensures !Clash(pr, vars, key) ==>
              Named(Parse(Unmark(SearchText(Shown(pr, vars)))), key) == [Split(text, '&')[0]]
    ensures '&' !in text ==> Split(text, '&')[0] == text
  {
    var v, ps := Setting(key, Some(text)), Shown(pr, vars);
    ShownOnce(pr, vars, v);
    assert ps != [];
    MarkedText(ps);
    ShownNames(pr, vars);
    ParsePrinted(ps, key);
    if '&' !in text {
      SplitPlain(text, '&');
    }
  }

  /** Nothing else is printed. */
  lemma {:induction false} ShownOnly(pr: Printer, vars: seq<UrlVar>, p: Param)
    requires p in Shown(pr, vars)
    ensures || p.name in ["lat", "lng", "zoom", "bea", "pit", "alt"]
            || (p.name in ["defaultURL", "geographyURL", "geographyColumn"] && Setting(p.name, Some(p.text)) in vars)
  {
    if !(ShowVar(pr, vars[0]) == Some(p)) {
      ShownOnly(pr, vars[1..], p);
    }
  }

  /** What is read back of a printed viewport: the position to three decimals; zoom,
      pitch and bearing unless they were printed first; a default for a zero; and a
      default for whatever a setting text has a second one of. */
  lemma ViewReadBack(pr: Printer, vars: seq<UrlVar>, lat: real, lng: real, zoom: real, pitch: real, bearing: real)
    requires (forall v <- vars :: pr.Faithful(v)) && DistinctKeys(vars)
    requires Reading("latitude", lat) in vars && Reading("longitude", lng) in vars && Reading("zoom", zoom) in vars
    requires Reading("pitch", pitch) in vars && Reading("bearing", bearing) in vars
    ensures var v := ViewOf(pr.js, SearchText(Shown(pr, vars)));
            && v.Some?
            && v.value.latitude == (if Clash(pr, vars, "lat") then LATITUDE else Fixed(lat, Three))
            && v.value.longitude == (if Clash(pr, vars, "lng") then LONGITUDE else Fixed(lng, Three))
            && v.value.zoom == OrElse(Angle(pr, vars, "zoom", Fixed(zoom, Two)), 10.0)
            && v.value.pit == OrElse(Angle(pr, vars, "pit", pitch), 55.0)
            && v.value.bea == OrElse(Angle(pr, vars, "bea", bearing), 0.0)
            && forall a | Reading("altitude", a) in vars :: v.value.alt == OrElse(Angle(pr, vars, "alt", a), 1.5)
  {
    forall a | Reading("altitude", a) in vars
      ensures ViewOf(pr.js, SearchText(Shown(pr, vars))).Some?
      ensures ViewOf(pr.js, SearchText(Shown(pr, vars))).value.alt == OrElse(Angle(pr, vars, "alt", a), 1.5)
    {
      NumberReadBack(pr, vars, Reading("altitude", a));
    }
    NumberReadBack(pr, vars, Reading("latitude", lat));
    NumberReadBack(pr, vars, Reading("longitude", lng));
    NumberReadBack(pr, vars, Reading("zoom", zoom));
    NumberReadBack(pr, vars, Reading("pitch", pitch));
    NumberReadBack(pr, vars, Reading("bearing", bearing));
    FixedTwice(lat, Three);
    FixedTwice(lng, Three);
  }

  /** What a zoom or an angle printed as `n` is read as. */
  function Angle(pr: Printer, vars: seq<UrlVar>, name: string, n: real): Option<real> {
    if First(pr, vars) == name then NumberOf(pr.js, Foreign(pr, vars), name)
    else if Clash(pr, vars, name) then None
    else Some(n)
  }

  lemma StoreOne(init: map<string, real>, member: string, name: string, value: real)
    requires member in init && name <= member
    ensures Store(init, name, value) == init[name := value]
  {
  }

  lemma StorePosition(init: map<string, real>, v: View)
    requires "latitude" in init && "longitude" in init && "zoom" in init
    ensures Store(Store(Store(init, "latitude", v.latitude), "longitude", v.longitude), "zoom", v.zoom)
            == init["latitude" := v.latitude]["longitude" := v.longitude]["zoom" := v.zoom]
  {
    StoreOne(init, "latitude", "latitude", v.latitude);
    var r := init["latitude" := v.latitude];
    StoreOne(r, "longitude", "longitude", v.longitude);
    StoreOne(r["longitude" := v.longitude], "zoom", "zoom", v.zoom);
  }

  lemma StoreAngles(init: map<string, real>, v: View)
    requires "pitch" in init && "bearing" in init
    ensures Store(Store(init, "pit", v.pit), "bea", v.bea) == init["pit" := v.pit]["bea" := v.bea]
  {
    StoreOne(init, "pitch", "pit", v.pit);
    StoreOne(init["pit" := v.pit], "bearing", "bea", v.bea);
  }

  lemma StoreViewMembers(init: map<string, real>, v: View)
    requires "latitude" in init && "longitude" in init && "zoom" in init && "pitch" in init && "bearing" in init
    ensures var r := StoreView(init, v);
            && init.Keys <= r.Keys && "pit" in r && "bea" in r
            && r["latitude"] == v.latitude && r["longitude"] == v.longitude && r["zoom"] == v.zoom
            && r["pit"] == v.pit && r["bea"] == v.bea
            && r["pitch"] == init["pitch"] && r["bearing"] == init["bearing"]
  {
    StorePosition(init, v);
    StoreAngles(init["latitude" := v.latitude]["longitude" := v.longitude]["zoom" := v.zoom], v);
  }

  const MEMBERS: set<string> := {"latitude", "longitude", "zoom", "pitch", "bearing"}

  /** Position and zoom of the URL win over any `viewport` prop and over whatever earlier
      calls left in the defaults, unless a setting text clashes with them, but the camera
      angles do not: they are stored as `pit` and `bea`, so pitch and bearing are the
      printed ones only if the defaults or the prop had them already. */
  lemma ViewportRoundTrip(pr: Printer, vars: seq<UrlVar>, defaults: map<string, real>, viewport: map<string, real>,
                          flat: bool, lat: real, lng: real, zoom: real, pitch: real, bearing: real)
    requires (forall v <- vars :: pr.Faithful(v)) && DistinctKeys(vars) && MEMBERS <= defaults.Keys
    requires Reading("latitude", lat) in vars && Reading("longitude", lng) in vars && Reading("zoom", zoom) in vars
    requires Reading("pitch", pitch) in vars && Reading("bearing", bearing) in vars
    ensures var before := defaults + viewport;
            var after := InitView(defaults, viewport, ViewOf(pr.js, SearchText(Shown(pr, vars))), flat);
            && MEMBERS <= after.Keys
            && (if Clash(pr, vars, "lat") then after["latitude"] == LATITUDE
                else -0.0005 <= after["latitude"] - lat <= 0.0005)
            && (if Clash(pr, vars, "lng") then after["longitude"] == LONGITUDE
                else -0.0005 <= after["longitude"] - lng <= 0.0005)
            && (if First(pr, vars) == "zoom"
                then after["zoom"] == OrElse(NumberOf(pr.js, Foreign(pr, vars), "zoom"), 10.0)
                else if Clash(pr, vars, "zoom") || Fixed(zoom, Two) == 0.0 then after["zoom"] == 10.0
                else -0.005 <= after["zoom"] - zoom <= 0.005)
            && (after["pitch"] == pitch <==> pitch == if flat then 0.0 else before["pitch"])
            && (after["bearing"] == bearing <==> bearing == before["bearing"])
            && "bea" in after && after["bea"] == OrElse(Angle(pr, vars, "bea", bearing), 0.0)
            && forall k <- before | k !in ["latitude", "longitude", "zoom", "pitch", "pit", "bea", "alt"] ::
                 k in after && after[k] == before[k]
  {
    ViewReadBack(pr, vars, lat, lng, zoom, pitch, bearing);
    ViewStored(defaults, viewport, ViewOf(pr.js, SearchText(Shown(pr, vars))).value, flat);
    FixedNear(lat, Three);
    FixedNear(lng, Three);
    FixedNear(zoom, Two);
  }

  /** What the view makes of the defaults. */
  lemma ViewStored(defaults: map<string, real>, viewport: map<string, real>, v: View, flat: bool)
    requires MEMBERS <= defaults.Keys
    ensures var before, after := defaults + viewport, InitView(defaults, viewport, Some(v), flat);
            && MEMBERS <= after.Keys && MEMBERS <= before.Keys && "bea" in after
            && after["latitude"] == v.latitude && after["longitude"] == v.longitude && after["zoom"] == v.zoom
            && after["bea"] == v.bea && after["bearing"] == before["bearing"]
            && after["pitch"] == (if flat then 0.0 else before["pitch"])
            && ("altitude" in before ==> "alt" in after && after["alt"] == v.alt)
            && forall k <- before | k !in ["latitude", "longitude", "zoom", "pitch", "pit", "bea", "alt"] ::
                 k in after && after[k] == before[k]
  {
    assert forall k <- MEMBERS :: k in defaults;
    StoreViewMembers(defaults + viewport, v);
  }

  lemma DefaultsUnfixed(x: real)
    ensures Fixed(x, Three) != LATITUDE && Fixed(x, Three) != LONGITUDE
  {
    var n := Nearest(Three.ToUnits(x));
    assert Fixed(x, Three) * 1000.0 == n as real;
    assert LATITUDE * 1000.0 == 53832.1 && LONGITUDE * 1000.0 == -1636.2;
  }

  /** A second trip through the address bar leaves each coordinate alone if and only if a
      setting clashes with it both times or neither time. The zoom stays if it has two
      decimals, as it does unless a setting supplied it, and is not lost the second time;
      otherwise only if it equals what is then taken for it. */
  lemma SecondPassStable(pr: Printer, first: seq<UrlVar>, second: seq<UrlVar>,
                         lat: real, lng: real, zoom: real, pitch: real, bearing: real, pitch2: real, bearing2: real)
    requires (forall v <- first + second :: pr.Faithful(v)) && DistinctKeys(first) && DistinctKeys(second)
    requires Reading("latitude", lat) in first && Reading("longitude", lng) in first && Reading("zoom", zoom) in first
    requires Reading("pitch", pitch) in first && Reading("bearing", bearing) in first
    requires var v := ViewOf(pr.js, SearchText(Shown(pr, first)));
             && v.Some?
             && Reading("latitude", v.value.latitude) in second && Reading("longitude", v.value.longitude) in second
             && Reading("zoom", v.value.zoom) in second
    requires Reading("pitch", pitch2) in second && Reading("bearing", bearing2) in second
    ensures var v, w := ViewOf(pr.js, SearchText(Shown(pr, first))), ViewOf(pr.js, SearchText(Shown(pr, second)));
            && v.Some? && w.Some?
            && (w.value.latitude == v.value.latitude <==> (Clash(pr, first, "lat") <==> Clash(pr, second, "lat")))
            && (w.value.longitude == v.value.longitude <==> (Clash(pr, first, "lng") <==> Clash(pr, second, "lng")))
            && (w.value.zoom == v.value.zoom <==>
                  if First(pr, second) == "zoom"
                  then v.value.zoom == OrElse(NumberOf(pr.js, Foreign(pr, second), "zoom"), 10.0)
                  else if Clash(pr, second, "zoom") then v.value.zoom == 10.0
                  else Fixed(v.value.zoom, Two) == v.value.zoom)
            && (First(pr, first) != "zoom" || !Clash(pr, first, "zoom") ==>
                  Fixed(v.value.zoom, Two) == v.value.zoom)
  {
    ViewReadBack(pr, first, lat, lng, zoom, pitch, bearing);
    var v := ViewOf(pr.js, SearchText(Shown(pr, first))).value;
    ViewReadBack(pr, second, v.latitude, v.longitude, v.zoom, pitch2, bearing2);
    FixedTwice(lat, Three);
    FixedTwice(lng, Three);
    FixedTwice(zoom, Two);
    FixedExact(1000, Two);
    assert Two.FromUnits(1000) == 10.0;
    DefaultsUnfixed(lat);
    DefaultsUnfixed(lng);
    DefaultsUnfixed(LATITUDE);
    DefaultsUnfixed(LONGITUDE);
  }
}
