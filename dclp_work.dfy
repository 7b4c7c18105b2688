/**
 * Work data of the DCLP metadata editor: the authority vocabulary, the
 * extraction of authority ids and of a language from lists of reference URLs,
 * and the objects (`Author`, `Title`, `ContentText`, `Extra`, `Work`) built
 * from the hash the DCLP meta identifier derives from EpiDoc.
 */
module DclpWork {
  import opened Common
  import opened Text

  datatype Authority = Tlg | Stoa | Cwkb | Phi | Tm

  /** The symbol halves of `authorityOptions`, in the source's order. */
  const AllAuthorities: seq<Authority> := [Tlg, Stoa, Cwkb, Phi, Tm]

  /** `s` with every occurrence of `a` deleted, order kept (Ruby's `delete_if`). */
  function Without(s: seq<Authority>, a: Authority): seq<Authority> {
    if s == [] then []
    else Without(s[..|s| - 1], a) + (if s[|s| - 1] == a then [] else [s[|s| - 1]])
  }

  lemma WithoutDropped()
    ensures Without(AllAuthorities, Tm) == [Tlg, Stoa, Cwkb, Phi]
    ensures Without(AllAuthorities, Phi) == [Tlg, Stoa, Cwkb, Tm]
  {
    var a := AllAuthorities;
    assert a[..1][..0] == [] && a[..2][..1] == a[..1] && a[..3][..2] == a[..2];
    assert a[..4][..3] == a[..3] && a[..5][..4] == a[..4] && a[..5] == a;
    assert Without(a[..1], Tm) == [Tlg] && Without(a[..1], Phi) == [Tlg];
    assert Without(a[..2], Tm) == [Tlg, Stoa] && Without(a[..2], Phi) == [Tlg, Stoa];
    assert Without(a[..3], Tm) == [Tlg, Stoa, Cwkb] && Without(a[..3], Phi) == [Tlg, Stoa, Cwkb];
    assert Without(a[..4], Tm) == [Tlg, Stoa, Cwkb, Phi] && Without(a[..4], Phi) == [Tlg, Stoa, Cwkb];
  }

  /**
   * `authorityOptions(mode)`: `:author` drops `tm`, `:title` drops `phi`, any
   * other mode keeps all five.  The default `mode = null` names no Ruby value,
   * so a call without an argument raises; that call is `None` here.
   */
  method AuthorityOptions(mode: Option<RubyValue>) returns (options: Option<seq<Authority>>)
    ensures mode.None? <==> options.None?
    ensures mode == Some(Symbol("author")) ==> options == Some([Tlg, Stoa, Cwkb, Phi])
    ensures mode == Some(Symbol("title")) ==> options == Some([Tlg, Stoa, Cwkb, Tm])
    ensures mode.Some? && mode.value != Symbol("author") && mode.value != Symbol("title") ==>
      options == Some(AllAuthorities)
  {
    if mode.None? {
      return None;
    }
    var list := AllAuthorities;
    if mode.value == Symbol("author") || mode.value == Symbol("title") {
      var dropped := if mode.value == Symbol("author") then Tm else Phi;
      var kept := [];
      for i := 0 to |list|
        invariant kept == Without(list[..i], dropped)
      {
        assert list[..i + 1][..i] == list[..i];
        if list[i] != dropped {
          kept := kept + [list[i]];
        }
      }
      assert list[..|list|] == list;
      WithoutDropped();
      list := kept;
    }
    return Some(list);
  }

  predicate KnownAuthority(kind: string) {
    kind == "tlg" || kind == "tm" || kind == "stoa" || kind == "phi" || kind == "cwkb"
  }

  /** `s[p+1..q]` is a run of digits with a non-digit on either side. */
  predicate BoundedRunAt(s: string, p: int, q: int) {
    0 <= p && p + 1 < q < |s| && !IsDigit(s[p]) && !IsDigit(s[q]) && AllDigits(s[p + 1..q])
  }

  /** A bounded run that ends at `j` is the longest digit suffix of `s[..j]`. */
  lemma RunEndingAt(s: string, p: int, j: int)
    requires BoundedRunAt(s, p, j)
    ensures DigitSuffixLength(s[..j]) == j - p - 1
  {
    assert s[..j][j - (j - p - 1) - 1] == s[p];
    assert s[..j][j - (j - p - 1)..] == s[p + 1..j];
    DigitSuffixIsMaximal(s[..j], s[p + 1..j]);
  }

  /** The bounded digit run with the rightmost start among those ending at or before index `j`. */
  function LastBoundedRun(s: string, j: int): (r: Option<(int, int)>)
    requires j < |s|
    decreases j + 1
    ensures r.Some? ==> BoundedRunAt(s, r.value.0, r.value.1) && r.value.1 <= j
    ensures forall p, q :: BoundedRunAt(s, p, q) && q <= j ==> r.Some? && p <= r.value.0
  {
    if j < 2 then None
    else
      var k := DigitSuffixLength(s[..j]);
      assert s[..j][j - k..] == s[j - k..j];
      if !IsDigit(s[j]) && 0 < k < j then
        assert forall t :: j - k <= t < j ==> IsDigit(s[t]) by {
          forall t | j - k <= t < j ensures IsDigit(s[t]) {
            assert s[t] == s[j - k..j][t - (j - k)];
          }
        }
        assert forall p, q :: BoundedRunAt(s, p, q) && q <= j ==> p <= j - k - 1 by {
          forall p, q | BoundedRunAt(s, p, q) && q == j ensures p <= j - k - 1 {
            RunEndingAt(s, p, j);
          }
        }
        Some((j - k - 1, j))
      else
        assert forall p :: BoundedRunAt(s, p, j) ==> DigitSuffixLength(s[..j]) == j - p - 1 by {
          forall p | BoundedRunAt(s, p, j) ensures DigitSuffixLength(s[..j]) == j - p - 1 {
            RunEndingAt(s, p, j);
          }
        }
        LastBoundedRun(s, j - 1)
  }

  /** `word` occurs in `t` at some index at or after `i`. */
  function OccursFrom(t: string, word: string, i: nat): (r: bool)
    requires i <= |t|
    decreases |t| - i
    ensures r <==> exists o :: i <= o && OccursAt(t, word, o)
  {
    if OccursAt(t, word, i) then true
    else if i + |word| >= |t| then
      assert forall o :: i <= o && OccursAt(t, word, o) ==> o == i;
      false
    else OccursFrom(t, word, i + 1)
  }

  /** The anchor `cwkb.org/(author|work)` occurs in `t`. */
  predicate HasCwkbAnchor(t: string) {
    OccursFrom(t, "cwkb.org/author", 0) || OccursFrom(t, "cwkb.org/work", 0)
  }

  lemma OccursInLongerPrefix(s: string, w: string, p: nat, p': nat)
    requires p <= p' <= |s|
    requires OccursFrom(s[..p], w, 0)
    ensures OccursFrom(s[..p'], w, 0)
  {
    var o :| 0 <= o && OccursAt(s[..p], w, o);
    assert s[..p'][o..o + |w|] == s[..p][o..o + |w|];
    assert OccursAt(s[..p'], w, o);
  }

  lemma HasCwkbAnchorMonotone(s: string, p: nat, p': nat)
    requires p <= p' <= |s|
    requires HasCwkbAnchor(s[..p])
    ensures HasCwkbAnchor(s[..p'])
  {
    if OccursFrom(s[..p], "cwkb.org/author", 0) {
      OccursInLongerPrefix(s, "cwkb.org/author", p, p');
    } else {
      OccursInLongerPrefix(s, "cwkb.org/work", p, p');
    }
  }

  /**
   * The id of a cwkb URL, the shape `\A.*cwkb\.org\/(author|work).*[^\d](\d+)[^\d].*\Z`:
   * the bounded digit run that starts rightmost, when an anchor ends before the
   * non-digit in front of it.
   */
  function CwkbId(url: string): (r: Option<string>)
    ensures r.Some? ==> exists p, q ::
      BoundedRunAt(url, p, q) && HasCwkbAnchor(url[..p]) && r.value == url[p + 1..q] &&
      forall p', q' :: BoundedRunAt(url, p', q') ==> p' <= p
    ensures r.None? ==> forall p, q :: BoundedRunAt(url, p, q) ==> !HasCwkbAnchor(url[..p])
  {
    match LastBoundedRun(url, |url| - 1)
    case None => None
    case Some((p, q)) =>
      if HasCwkbAnchor(url[..p]) then Some(url[p + 1..q])
      else
        assert forall p', q' :: BoundedRunAt(url, p', q') ==> !HasCwkbAnchor(url[..p']) by {
          forall p', q' | BoundedRunAt(url, p', q') && HasCwkbAnchor(url[..p']) ensures false {
            HasCwkbAnchorMonotone(url, p', p);
          }
        }
        None
  }

  /** The id that one URL yields for the authority `kind` (a symbol name). */
  function IdInUrl(url: string, kind: string): Option<string> {
    match kind
    case "tlg" => IdAfter(url, "tlg")
    case "tm" => IdAfter(url, "authorwork/")
    case "stoa" => IdAfter(url, "stoa")
    case "phi" => IdAfter(url, "phi")
    case "cwkb" => CwkbId(url)
    case _ => None
  }

  /** `urls[i]` is the first URL that yields an id for `kind`. */
  predicate FirstMatchAt(urls: seq<string>, kind: string, i: int) {
    0 <= i < |urls| && IdInUrl(urls[i], kind).Some? &&
    forall j :: 0 <= j < i ==> IdInUrl(urls[j], kind).None?
  }

  function FirstIdFrom(urls: seq<string>, kind: string, i: nat): (r: Option<string>)
    requires i <= |urls|
    decreases |urls| - i
    ensures r.Some? ==> exists m :: (i <= m < |urls| && IdInUrl(urls[m], kind) == r &&
                                     forall j :: i <= j < m ==> IdInUrl(urls[j], kind).None?)
    ensures r.None? ==> forall j :: i <= j < |urls| ==> IdInUrl(urls[j], kind).None?
  {
    if i == |urls| then None
    else if !KnownAuthority(kind) then None
    else if IdInUrl(urls[i], kind).Some? then IdInUrl(urls[i], kind)
    else
      var r := FirstIdFrom(urls, kind, i + 1);
      assert r.Some? ==> exists m :: (i <= m < |urls| && IdInUrl(urls[m], kind) == r &&
                                      forall j :: i <= j < m ==> IdInUrl(urls[j], kind).None?) by {
        if r.Some? {
          var m :| i + 1 <= m < |urls| && IdInUrl(urls[m], kind) == r &&
                   forall j :: i + 1 <= j < m ==> IdInUrl(urls[j], kind).None?;
          assert forall j :: i <= j < m ==> IdInUrl(urls[j], kind).None?;
        }
      }
      r
  }

  /**
   * `getIdFromUrl(urlList, type)`: the id from the first URL in list order that
   * yields one; nil for a nil list, an unknown authority or no match.
   */
  function GetIdFromUrl(urlList: Option<seq<string>>, kind: string): (r: Option<string>)
    ensures urlList.None? || !KnownAuthority(kind) ==> r.None?
    ensures r.Some? ==> exists i :: FirstMatchAt(urlList.value, kind, i) && IdInUrl(urlList.value[i], kind) == r
    ensures urlList.Some? && r.None? ==> forall i :: 0 <= i < |urlList.value| ==> IdInUrl(urlList.value[i], kind).None?
  {
    if urlList.None? then None else FirstIdFrom(urlList.value, kind, 0)
  }

  predicate NoLanguageWordIn(url: string, lo: int, hi: int) {
    forall j :: lo <= j < hi ==> !OccursAt(url, "greek", j) && !OccursAt(url, "latin", j)
  }

  /** The leftmost occurrence at or after `i` of `greek` or `latin`: its index and the word. */
  function LanguageWordFrom(url: string, i: nat): (r: Option<(nat, string)>)
    requires i <= |url|
    decreases |url| - i
    ensures r.Some? ==> r.value.1 == "greek" || r.value.1 == "latin"
    ensures r.Some? ==> i <= r.value.0 && OccursAt(url, r.value.1, r.value.0) && NoLanguageWordIn(url, i, r.value.0)
    ensures r.None? ==> NoLanguageWordIn(url, i, |url|)
  {
    if i == |url| then None
    else if OccursAt(url, "greek", i) then Some((i, "greek"))
    else if OccursAt(url, "latin", i) then Some((i, "latin"))
    else LanguageWordFrom(url, i + 1)
  }

  function LanguageCode(word: string): string {
    if word == "latin" then "la" else "grc"
  }

  function LanguageFrom(urls: seq<string>, i: nat): (r: Option<string>)
    requires i <= |urls|
    decreases |urls| - i
    ensures r.Some? ==> exists m :: (i <= m < |urls| && LanguageWordFrom(urls[m], 0).Some? &&
                                     r.value == LanguageCode(LanguageWordFrom(urls[m], 0).value.1) &&
                                     forall j :: i <= j < m ==> LanguageWordFrom(urls[j], 0).None?)
    ensures r.None? ==> forall j :: i <= j < |urls| ==> LanguageWordFrom(urls[j], 0).None?
  {
    if i == |urls| then None
    else match LanguageWordFrom(urls[i], 0)
      case Some((_, word)) => Some(LanguageCode(word))
      case None =>
        var r := LanguageFrom(urls, i + 1);
        assert r.Some? ==> exists m :: (i <= m < |urls| && LanguageWordFrom(urls[m], 0).Some? &&
                                        r.value == LanguageCode(LanguageWordFrom(urls[m], 0).value.1) &&
                                        forall j :: i <= j < m ==> LanguageWordFrom(urls[j], 0).None?) by {
          if r.Some? {
            var m :| i + 1 <= m < |urls| && LanguageWordFrom(urls[m], 0).Some? &&
                     r.value == LanguageCode(LanguageWordFrom(urls[m], 0).value.1) &&
                     forall j :: i + 1 <= j < m ==> LanguageWordFrom(urls[j], 0).None?;
            assert forall j :: i <= j < m ==> LanguageWordFrom(urls[j], 0).None?;
          }
        }
        r
  }

  /**
   * `getLanguageFromUrl(urlList)`: `la` or `grc` after the leftmost `latin` or
   * `greek` of the first URL that holds either word; nil otherwise.
   */
  function GetLanguageFromUrl(urlList: Option<seq<string>>): (r: Option<string>)
    ensures r.Some? ==> urlList.Some? && (r.value == "la" || r.value == "grc")
    ensures r.Some? ==> urlList.Some? && exists m :: (0 <= m < |urlList.value| && LanguageWordFrom(urlList.value[m], 0).Some? &&
                                     r.value == LanguageCode(LanguageWordFrom(urlList.value[m], 0).value.1) &&
                                     forall j :: 0 <= j < m ==> LanguageWordFrom(urlList.value[j], 0).None?)
    ensures urlList.Some? && r.None? ==> forall j :: 0 <= j < |urlList.value| ==> NoLanguageWordIn(urlList.value[j], 0, |urlList.value[j]|)
  {
    if urlList.None? then None else LanguageFrom(urlList.value, 0)
  }

  /** A child element: its text and, when it has any, its attributes. */
  datatype Leaf = Leaf(value: Option<string>, attributes: Option<map<string, string>>)

  /** The hash an `Author` or a `Title` is built from: text, `ref` and `language` attributes, children. */
  datatype CitationInit = CitationInit(value: Option<string>, ref: Option<seq<string>>, language: Option<string>,
                                       children: map<string, Leaf>)

  function Refs(init: CitationInit): seq<string> {
    if init.ref.Some? then init.ref.value else []
  }

  /** An authority id of an author or title: the child element's value if there is one, else the id in its refs. */
  function AuthorityId(init: CitationInit, kind: string): Option<string> {
    if kind in init.children then init.children[kind].value else GetIdFromUrl(Some(Refs(init)), kind)
  }

  /** The language: the `language` attribute if set, else the one found in the refs. */
  function CitationLanguage(init: CitationInit): Option<string> {
    if init.language.Some? then init.language else GetLanguageFromUrl(Some(Refs(init)))
  }

  class Author {
    var name: Option<string>
    var language: Option<string>
    var tlg: Option<string>
    var cwkb: Option<string>
    var phi: Option<string>
    var stoa: Option<string>
    var authority: map<Authority, Option<string>>
    var certainty: Option<Leaf>
    var ref: seq<string>
    var corresp: Option<string>

    ghost predicate BuiltFrom(init: CitationInit)
      reads this
    {
      && name == init.value && ref == Refs(init)
      && phi == AuthorityId(init, "phi") && tlg == AuthorityId(init, "tlg")
      && stoa == AuthorityId(init, "stoa") && cwkb == AuthorityId(init, "cwkb")
      && authority == map[Phi := phi, Tlg := tlg, Stoa := stoa, Cwkb := cwkb]
      && language == CitationLanguage(init)
      && certainty == Lookup(init.children, "certainty") && corresp == None
    }

    constructor (init: CitationInit)
      ensures BuiltFrom(init)
    {
      var refs := Refs(init);
      name := init.value;
      ref := refs;
      phi := if "phi" in init.children then init.children["phi"].value else GetIdFromUrl(Some(refs), "phi");
      tlg := if "tlg" in init.children then init.children["tlg"].value else GetIdFromUrl(Some(refs), "tlg");
      stoa := if "stoa" in init.children then init.children["stoa"].value else GetIdFromUrl(Some(refs), "stoa");
      cwkb := if "cwkb" in init.children then init.children["cwkb"].value else GetIdFromUrl(Some(refs), "cwkb");
      authority := map[Phi := phi, Tlg := tlg, Stoa := stoa, Cwkb := cwkb];
      language := if init.language.Some? then init.language else GetLanguageFromUrl(Some(refs));
      certainty := if "certainty" in init.children then Some(init.children["certainty"]) else None;
      corresp := None;
    }
  }

  /** A `Title` reads the attributes of its `date` child. */
  predicate DateHasAttributes(init: CitationInit) {
    "date" in init.children ==> init.children["date"].attributes.Some?
  }

  class Title {
    var name: Option<string>
    var language: Option<string>
    var tlg: Option<string>
    var cwkb: Option<string>
    var tm: Option<string>
    var stoa: Option<string>
    var authority: map<Authority, Option<string>>
    var certainty: Option<Leaf>
    var ref: seq<string>
    var date: Option<string>
    var when: Option<string>
    var from: Option<string>
    var to: Option<string>
    var corresp: Option<string>

    ghost predicate BuiltFrom(init: CitationInit)
      reads this
      requires DateHasAttributes(init)
    {
      && name == init.value && ref == Refs(init)
      && tm == AuthorityId(init, "tm") && tlg == AuthorityId(init, "tlg")
      && stoa == AuthorityId(init, "stoa") && cwkb == AuthorityId(init, "cwkb")
      && authority == map[Tm := tm, Tlg := tlg, Stoa := stoa, Cwkb := cwkb]
      && language == CitationLanguage(init)
      && certainty == Lookup(init.children, "certainty")
      && corresp == None
      && (if "date" in init.children then
            var dateAttributes := init.children["date"].attributes.value;
            date == init.children["date"].value && when == Lookup(dateAttributes, "when") &&
            from == Lookup(dateAttributes, "from") && to == Lookup(dateAttributes, "to")
          else date == None && when == None && from == None && to == None)
    }

    constructor (init: CitationInit)
      requires DateHasAttributes(init)
      ensures BuiltFrom(init)
    {
      var refs := Refs(init);
      name := init.value;
      ref := refs;
      tm := if "tm" in init.children then init.children["tm"].value else GetIdFromUrl(Some(refs), "tm");
      tlg := if "tlg" in init.children then init.children["tlg"].value else GetIdFromUrl(Some(refs), "tlg");
      stoa := if "stoa" in init.children then init.children["stoa"].value else GetIdFromUrl(Some(refs), "stoa");
      cwkb := if "cwkb" in init.children then init.children["cwkb"].value else GetIdFromUrl(Some(refs), "cwkb");
      authority := map[Tm := tm, Tlg := tlg, Stoa := stoa, Cwkb := cwkb];
      language := if init.language.Some? then init.language else GetLanguageFromUrl(Some(refs));
      certainty := if "certainty" in init.children then Some(init.children["certainty"]) else None;
      var hasDate := "date" in init.children;
      date := if hasDate then init.children["date"].value else None;
      when := if hasDate then Lookup(init.children["date"].attributes.value, "when") else None;
      from := if hasDate then Lookup(init.children["date"].attributes.value, "from") else when;
      to := if hasDate then Lookup(init.children["date"].attributes.value, "to") else None;
      corresp := None;
    }
  }

  /** The list a content-text keyword goes to, chosen by its `class` attribute. */
  datatype Bucket = Culture | Religion | Genre | Overview | Keywords

  function KeywordBucket(keyword: Leaf): Bucket {
    var keywordClass := if keyword.attributes.Some? then Lookup(keyword.attributes.value, "class") else None;
    match keywordClass
    case Some("culture") => Culture
    case Some("religion") => Religion
    case Some("description") => Genre
    case Some("overview") => Overview
    case _ => Keywords
  }

  /** The values of the keywords in `bucket`, in document order. */
  function ValuesIn(keywords: seq<Leaf>, bucket: Bucket): seq<Option<string>> {
    if keywords == [] then []
    else
      var last := keywords[|keywords| - 1];
      ValuesIn(keywords[..|keywords| - 1], bucket) + (if KeywordBucket(last) == bucket then [last.value] else [])
  }

  /** The number of keywords in `bucket`: zero exactly when no keyword has the bucket's class. */
  function CountIn(keywords: seq<Leaf>, bucket: Bucket): (n: nat)
    ensures n == 0 <==> forall i :: 0 <= i < |keywords| ==> KeywordBucket(keywords[i]) != bucket
  {
    if keywords == [] then 0
    else CountIn(keywords[..|keywords| - 1], bucket) + (if KeywordBucket(keywords[|keywords| - 1]) == bucket then 1 else 0)
  }

  /** The overview: the value of the last `overview` keyword, `''` when there is none. */
  function LastOverview(keywords: seq<Leaf>): Option<string> {
    if keywords == [] then Some("")
    else if KeywordBucket(keywords[|keywords| - 1]) == Overview then keywords[|keywords| - 1].value
    else LastOverview(keywords[..|keywords| - 1])
  }

  /** Each bucket holds exactly the values of its keywords, one per keyword. */
  lemma {:induction false} ValuesInCounts(keywords: seq<Leaf>, bucket: Bucket)
    ensures |ValuesIn(keywords, bucket)| == CountIn(keywords, bucket)
  {
    if keywords != [] {
      ValuesInCounts(keywords[..|keywords| - 1], bucket);
    }
  }

  /** Every keyword lands in exactly one bucket: the five counts add up to the number of keywords. */
  lemma {:induction false} BucketsPartition(keywords: seq<Leaf>)
    ensures CountIn(keywords, Culture) + CountIn(keywords, Religion) + CountIn(keywords, Genre)
            + CountIn(keywords, Overview) + CountIn(keywords, Keywords) == |keywords|
  {
    if keywords != [] {
      BucketsPartition(keywords[..|keywords| - 1]);
    }
  }

  /** The overview is `''` exactly when no keyword is an overview, or the last overview keyword has that text. */
  lemma {:induction false} LastOverviewIsLast(keywords: seq<Leaf>, i: nat)
    requires i < |keywords| && KeywordBucket(keywords[i]) == Overview
    requires forall j :: i < j < |keywords| ==> KeywordBucket(keywords[j]) != Overview
    ensures LastOverview(keywords) == keywords[i].value
  {
    if i < |keywords| - 1 {
      var front := keywords[..|keywords| - 1];
      assert forall j :: i < j < |front| ==> front[j] == keywords[j];
      LastOverviewIsLast(front, i);
    }
  }

  lemma {:induction false} NoOverviewGivesEmpty(keywords: seq<Leaf>)
    requires CountIn(keywords, Overview) == 0
    ensures LastOverview(keywords) == Some("")
  {
    if keywords != [] {
      NoOverviewGivesEmpty(keywords[..|keywords| - 1]);
    }
  }

  /** `ContentText`: genre, religion, culture and free keywords of a work, plus its overview. */
  class ContentText {
    var genre: seq<Option<string>>
    var religion: seq<Option<string>>
    var culture: seq<Option<string>>
    var keywords: seq<Option<string>>
    var overview: Option<string>

    /** Sorts the keywords of `contentText` (absent when the hash has none) by their `class`. */
    constructor (contentText: Option<seq<Leaf>>)
      ensures var list := if contentText.Some? then contentText.value else [];
              && culture == ValuesIn(list, Culture) && religion == ValuesIn(list, Religion)
              && genre == ValuesIn(list, Genre) && keywords == ValuesIn(list, Keywords)
              && overview == LastOverview(list)
    {
      var list := if contentText.Some? then contentText.value else [];
      var g, r, c, k, o := [], [], [], [], Some("");
      for i := 0 to |list|
        invariant c == ValuesIn(list[..i], Culture) && r == ValuesIn(list[..i], Religion)
        invariant g == ValuesIn(list[..i], Genre) && k == ValuesIn(list[..i], Keywords)
        invariant o == LastOverview(list[..i])
      {
        assert list[..i + 1][..i] == list[..i];
        match KeywordBucket(list[i])
        case Culture => c := c + [list[i].value];
        case Religion => r := r + [list[i].value];
        case Genre => g := g + [list[i].value];
        case Overview => o := list[i].value;
        case Keywords => k := k + [list[i].value];
      }
      assert list[..|list|] == list;
      genre, religion, culture, keywords, overview := g, r, c, k, o;
    }
  }

  /** The hash a work's `extra` is built from. */
  datatype ExtraInit = ExtraInit(value: Option<string>, attributes: Option<map<string, string>>,
                                 children: Option<map<string, Leaf>>)

  /** An extent of a work (`<extra>` in a bibliographic citation), with its certainty. */
  class Extra {
    var value: Option<string>
    var unit: Option<string>
    var certainty: Option<Leaf>
    var from: Option<string>
    var to: Option<string>
    var corresp: Option<string>

    ghost predicate BuiltFrom(init: Option<ExtraInit>)
      reads this
    {
      match init
      case None => value == None && unit == None && certainty == None && from == None && to == None && corresp == None
      case Some(e) =>
        var attributes := if e.attributes.Some? then e.attributes.value else map[];
        && value == e.value
        && unit == Lookup(attributes, "unit") && from == Lookup(attributes, "from")
        && to == Lookup(attributes, "to") && corresp == Lookup(attributes, "corresp")
        && certainty == (if e.children.Some? then Lookup(e.children.value, "certainty") else None)
    }

    constructor (init: Option<ExtraInit>)
      ensures BuiltFrom(init)
    {
      value, unit, certainty, from, to, corresp := None, None, None, None, None, None;
      if init.Some? {
        value := init.value.value;
        if init.value.attributes.Some? {
          var attributes := init.value.attributes.value;
          unit := Lookup(attributes, "unit");
          from := Lookup(attributes, "from");
          to := Lookup(attributes, "to");
          corresp := Lookup(attributes, "corresp");
        }
        if init.value.children.Some? && "certainty" in init.value.children.value {
          certainty := Some(init.value.children.value["certainty"]);
        }
      }
    }
  }

  datatype WorkChildren = WorkChildren(author: Option<CitationInit>, title: Option<CitationInit>,
                                       extra: Option<seq<ExtraInit>>)

  /** The hash a `Work` is built from: its attributes (`subtype`, `corresp`, `id`, `exclude`) and children. */
  datatype WorkInit = WorkInit(attributes: Option<map<string, string>>, children: Option<WorkChildren>)

  /** A work marks the citation as a list of alternatives when it carries a non-empty `exclude` attribute. */
  predicate Excludes(work: Option<WorkInit>) {
    work.Some? && work.value.attributes.Some? && "exclude" in work.value.attributes.value
    && work.value.attributes.value["exclude"] != ""
  }

  /** `Work.alternative?`: some work of the list carries a non-empty `exclude` attribute. */
  method IsAlternative(works: seq<Option<WorkInit>>) returns (r: bool)
    ensures r <==> exists i :: 0 <= i < |works| && Excludes(works[i])
  {
    for i := 0 to |works|
      invariant forall j :: 0 <= j < i ==> !Excludes(works[j])
    {
      if Excludes(works[i]) {
        return true;
      }
    }
    return false;
  }

  /** The names `populateAtomFromHash` copies from the attribute hash. */
  const WorkAtoms: seq<string> := ["subtype", "corresp", "id", "exclude"]

  /** The extents of `init`'s children, in order. */
  function ExtraInits(init: WorkInit): seq<ExtraInit> {
    if init.children.Some? && init.children.value.extra.Some? then init.children.value.extra.value else []
  }

  /** A `Title` child can only be read when its `date` child has attributes. */
  predicate WorkTitleReadable(init: Option<WorkInit>) {
    init.Some? && init.value.children.Some? && init.value.children.value.title.Some? ==>
      DateHasAttributes(init.value.children.value.title.value)
  }

  class Work {
    var subtype: Option<string>
    var corresp: Option<string>
    var id: Option<string>
    var exclude: Option<string>
    var alternative: Option<bool>
    var author: Author?
    var title: Title?
    var extraList: seq<Extra>

    function Atom(name: string): Option<string>
      reads this
    {
      match name
      case "subtype" => subtype
      case "corresp" => corresp
      case "id" => id
      case _ => exclude
    }

    method SetAtom(name: string, v: Option<string>)
      requires name in WorkAtoms
      modifies this
      ensures Atom(name) == v
      ensures forall n :: n in WorkAtoms && n != name ==> Atom(n) == old(Atom(n))
      ensures alternative == old(alternative) && author == old(author) && title == old(title)
      ensures extraList == old(extraList)
    {
      match name
      case "subtype" => subtype := v;
      case "corresp" => corresp := v;
      case "id" => id := v;
      case "exclude" => exclude := v;
    }

    /** `populateAtomFromHash`: each of the four atoms takes the hash's entry, or nil when it has none. */
    method PopulateAtomFromHash(hash: map<string, string>)
      modifies this
      ensures subtype == Lookup(hash, "subtype") && corresp == Lookup(hash, "corresp")
      ensures id == Lookup(hash, "id") && exclude == Lookup(hash, "exclude")
      ensures alternative == old(alternative) && author == old(author) && title == old(title)
      ensures extraList == old(extraList)
    {
      for i := 0 to |WorkAtoms|
        invariant forall j :: 0 <= j < i ==> Atom(WorkAtoms[j]) == Lookup(hash, WorkAtoms[j])
        invariant alternative == old(alternative) && author == old(author) && title == old(title)
        invariant extraList == old(extraList)
      {
        SetAtom(WorkAtoms[i], Lookup(hash, WorkAtoms[i]));
      }
      assert Atom(WorkAtoms[0]) == Lookup(hash, "subtype") && Atom(WorkAtoms[1]) == Lookup(hash, "corresp");
      assert Atom(WorkAtoms[2]) == Lookup(hash, "id") && Atom(WorkAtoms[3]) == Lookup(hash, "exclude");
    }

    /**
     * `Work.new(init)`: the atoms come from the attributes, the work is an
     * alternative when its `id` is a non-empty string, and author, title and
     * extents are built from the children.
     */
    constructor (init: Option<WorkInit>)
      requires WorkTitleReadable(init)
      ensures var attributes := if init.Some? && init.value.attributes.Some? then init.value.attributes.value else map[];
              && subtype == Lookup(attributes, "subtype") && corresp == Lookup(attributes, "corresp")
              && id == Lookup(attributes, "id") && exclude == Lookup(attributes, "exclude")
      ensures alternative == (if id.Some? && id.value != "" then Some(true) else None)
      ensures var children := if init.Some? && init.value.children.Some? then init.value.children.value
                              else WorkChildren(None, None, None);
              && (children.author.None? <==> author == null)
              && (children.author.Some? ==> fresh(author) && author.BuiltFrom(children.author.value))
              && (children.title.None? <==> title == null)
              && (children.title.Some? ==> fresh(title) && title.BuiltFrom(children.title.value))
      ensures var extras := if init.Some? then ExtraInits(init.value) else [];
              && |extraList| == |extras|
              && forall i :: 0 <= i < |extras| ==> fresh(extraList[i]) && extraList[i].BuiltFrom(Some(extras[i]))
    {
      subtype, corresp, id, exclude, alternative := None, None, None, None, None;
      author, title, extraList := null, null, [];
      new;
      if init.Some? {
        if init.value.attributes.Some? {
          PopulateAtomFromHash(init.value.attributes.value);
          if id.Some? && id.value != "" {
            alternative := Some(true);
          }
        }
        if init.value.children.Some? {
          ApplyChildren(init.value.children.value);
        }
      }
    }

    /** Builds author, title and extents from the children of the work's hash. */
    method ApplyChildren(children: WorkChildren)
      requires children.title.Some? ==> DateHasAttributes(children.title.value)
      modifies this
      ensures subtype == old(subtype) && corresp == old(corresp) && id == old(id) && exclude == old(exclude)
      ensures alternative == old(alternative)
      ensures children.author.None? ==> author == old(author)
      ensures children.author.Some? ==> author != null && fresh(author) && author.BuiltFrom(children.author.value)
      ensures children.title.None? ==> title == old(title)
      ensures children.title.Some? ==> title != null && fresh(title) && title.BuiltFrom(children.title.value)
      ensures children.extra.None? ==> extraList == old(extraList)
      ensures children.extra.Some? ==>
                && |extraList| == |children.extra.value|
                && forall i :: 0 <= i < |extraList| ==>
                     fresh(extraList[i]) && extraList[i].BuiltFrom(Some(children.extra.value[i]))
    {
      if children.author.Some? {
        author := new Author(children.author.value);
      }
      if children.title.Some? {
        title := new Title(children.title.value);
      }
      if children.extra.Some? {
        extraList := NewExtraList(children.extra.value);
      }
    }
  }

  /** The extents of a work, one fresh `Extra` per hash, in order. */
  method NewExtraList(extras: seq<ExtraInit>) returns (list: seq<Extra>)
    ensures |list| == |extras|
    ensures forall i :: 0 <= i < |extras| ==> fresh(list[i]) && list[i].BuiltFrom(Some(extras[i]))
  {
    list := [];
    for i := 0 to |extras|
      invariant |list| == i
      invariant forall j :: 0 <= j < i ==> fresh(list[j]) && list[j].BuiltFrom(Some(extras[j]))
    {
      var extra := new Extra(Some(extras[i]));
      list := list + [extra];
    }
  }
}
