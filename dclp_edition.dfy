/**
 * Edition data of the DCLP metadata editor: the `biblScope/@unit` vocabulary,
 * the combined "ubertype" of an edition, the bibliography id taken from its
 * link, and the `Edition` and `Extra` objects built from the hash that the
 * DCLP meta identifier derives from EpiDoc.  Option labels (I18n) are left
 * out; only the symbol half of each option pair is kept, as its name.
 */
module DclpEdition {
  import opened Common
  import opened Text

  /** The units of `extraOptions`, in the order (alphabetical) in which the source lists them. */
  const ExtraOptions: seq<string> := [
    "book", "chapter", "column", "fascicle", "folio", "fragment", "generic", "inventory", "issue",
    "line", "number", "page", "part", "plate", "poem", "side", "tome", "volume"]

  /** Strict lexicographic order on strings, as Ruby compares them. */
  predicate LexLess(a: string, b: string) {
    if a == [] then b != []
    else b != [] && (a[0] < b[0] || (a[0] == b[0] && LexLess(a[1..], b[1..])))
  }

  /** The unit list is in strict alphabetical order, hence without duplicates. */
  lemma ExtraOptionsAlphabetical()
    ensures |ExtraOptions| == 18
    ensures forall i :: 0 < i < |ExtraOptions| ==> LexLess(ExtraOptions[i - 1], ExtraOptions[i])
  {
  }

  /** Linear search with early return over an option list. */
  function Listed(name: string, options: seq<string>): (r: bool)
    ensures r <==> name in options
  {
    options != [] && (options[0] == name || Listed(name, options[1..]))
  }

  /**
   * `validExtraOption?`: a Symbol or a String whose symbol is one of the
   * listed units; any other value (nil, a number, ...) is not valid.
   */
  function ValidExtraOption(test: RubyValue): (r: bool)
    ensures r <==> (test.Symbol? && test.name in ExtraOptions) || (test.Str? && test.s in ExtraOptions)
  {
    match test
    case Symbol(name) => Listed(name, ExtraOptions)
    case Str(s) => Listed(s, ExtraOptions)
    case _ => false
  }

  /**
   * The ubertype of an edition: its subtype, except that a `reference`
   * edition of subtype `principal` is the ubertype `reference`.
   */
  function Ubertype(editionType: Option<string>, subtype: Option<string>): (r: Option<string>)
    ensures editionType == Some("reference") && subtype == Some("principal") ==> r == Some("reference")
    ensures !(editionType == Some("reference") && subtype == Some("principal")) ==> r == subtype
  {
    if editionType == Some("reference") && subtype == Some("principal") then Some("reference") else subtype
  }

  /**
   * The bibliography id of an edition link, the shape `\A.+\/(\d+)\Z`: the
   * digits after the last '/', when at least one character precedes that '/'.
   */
  function BiblioId(link: string): (r: Option<string>)
    ensures r.Some? ==> EndsWithId(link, "/", r.value) && |r.value| + 2 <= |link|
    ensures forall d :: EndsWithId(link, "/", d) && |d| + 2 <= |link| ==> r == Some(d)
  {
    var id := IdAfter(link, "/");
    if id.Some? && |id.value| + 2 <= |link| then id else None
  }

  /** An `extra` child of an edition: its value and its attribute hash. */
  datatype ExtraNode = ExtraNode(value: Option<string>, attributes: map<string, string>)

  /** The `title` child of an edition. */
  datatype TitleNode = TitleNode(value: Option<string>, attributes: Option<map<string, string>>)

  /** The `children` hash of an edition: `link` holds the link's value. */
  datatype EditionChildren = EditionChildren(link: Option<string>, title: Option<TitleNode>, extra: Option<seq<ExtraNode>>)

  datatype EditionNode = EditionNode(attributes: Option<map<string, string>>, children: Option<EditionChildren>)

  /** The `init` hash of an edition: either nested under `:edition`, or a flat hash of atoms. */
  datatype EditionInit = Nested(edition: EditionNode) | Flat(atoms: map<string, string>)

  /** `Extra.new` dereferences the unit attribute of every extra child (`unit.to_sym`). */
  predicate ExtrasHaveUnits(init: Option<EditionInit>) {
    init.Some? && init.value.Nested? && init.value.edition.children.Some? &&
    init.value.edition.children.value.extra.Some? ==>
      forall e :: e in init.value.edition.children.value.extra.value ==> "unit" in e.attributes
  }

  /** The atom hash that `populateAtomFromHash` reads for a given `init`. */
  function InitAtoms(init: Option<EditionInit>): map<string, string> {
    match init
    case None => map[]
    case Some(Flat(atoms)) => atoms
    case Some(Nested(EditionNode(attributes, _))) => if attributes.Some? then attributes.value else map[]
  }

  function InitChildren(init: Option<EditionInit>): Option<EditionChildren> {
    if init.Some? && init.value.Nested? then init.value.edition.children else None
  }

  /** The names of the atomic attributes of an edition that have a TEI equivalent. */
  const EditionAtoms: seq<string> := ["type", "subtype", "ubertype", "language", "link", "title", "titleLevel", "titleType"]

  /** A `biblScope` of an edition (DclpEdition::Extra). */
  class Extra {
    var value: Option<string>
    var unit: string
    var corresp: Option<string>
    var from: Option<string>
    var to: Option<string>

    constructor (value: Option<string>, unit: string, corresp: Option<string>, from: Option<string>, to: Option<string>)
      ensures this.value == value && this.unit == unit && this.corresp == corresp
      ensures this.from == from && this.to == to
    {
      this.value := value;
      this.unit := unit;
      this.corresp := corresp;
      this.from := from;
      this.to := to;
    }
  }

  /** `extra` was built from `node` by `Extra.new(value, unit, corresp, from, to)`. */
  ghost predicate BuiltFrom(extra: Extra, node: ExtraNode)
    reads extra
  {
    "unit" in node.attributes &&
    extra.value == node.value && extra.unit == node.attributes["unit"] &&
    extra.corresp == Lookup(node.attributes, "corresp") &&
    extra.from == Lookup(node.attributes, "from") && extra.to == Lookup(node.attributes, "to")
  }

  class Edition {
    var editionType: Option<string>
    var subtype: Option<string>
    var ubertype: Option<string>
    var language: Option<string>
    var link: Option<string>
    var biblioId: Option<string>
    var extraList: seq<Extra>
    var preview: Option<string>
    var title: Option<string>
    var titleLevel: Option<string>
    var titleType: Option<string>

    /** The atomic field named `name` (the getter `populateAtomFromHash` pairs with each setter). */
    function Atom(name: string): Option<string>
      reads this
    {
      match name
      case "type" => editionType
      case "subtype" => subtype
      case "ubertype" => ubertype
      case "language" => language
      case "link" => link
      case "title" => title
      case "titleLevel" => titleLevel
      case "titleType" => titleType
      case _ => None
    }

    /** The setter `name=` for one atom. */
    method SetAtom(name: string, v: Option<string>)
      requires name in EditionAtoms
      modifies this
      ensures Atom(name) == v
      ensures forall n :: n in EditionAtoms && n != name ==> Atom(n) == old(Atom(n))
      ensures biblioId == old(biblioId) && extraList == old(extraList) && preview == old(preview)
    {
      match name
      case "type" => editionType := v;
      case "subtype" => subtype := v;
      case "ubertype" => ubertype := v;
      case "language" => language := v;
      case "link" => link := v;
      case "title" => title := v;
      case "titleLevel" => titleLevel := v;
      case "titleType" => titleType := v;
    }

    /** `populateAtomFromHash`: every atom takes the hash's entry, or nil when it has none. */
    method PopulateAtomFromHash(hash: map<string, string>)
      modifies this
      ensures editionType == Lookup(hash, "type") && subtype == Lookup(hash, "subtype")
      ensures ubertype == Lookup(hash, "ubertype") && language == Lookup(hash, "language")
      ensures link == Lookup(hash, "link") && title == Lookup(hash, "title")
      ensures titleLevel == Lookup(hash, "titleLevel") && titleType == Lookup(hash, "titleType")
      ensures biblioId == old(biblioId) && extraList == old(extraList) && preview == old(preview)
    {
      for i := 0 to |EditionAtoms|
        invariant forall j :: 0 <= j < i ==> Atom(EditionAtoms[j]) == Lookup(hash, EditionAtoms[j])
        invariant biblioId == old(biblioId) && extraList == old(extraList) && preview == old(preview)
      {
        SetAtom(EditionAtoms[i], Lookup(hash, EditionAtoms[i]));
      }
      assert Atom(EditionAtoms[0]) == Lookup(hash, "type") && Atom(EditionAtoms[1]) == Lookup(hash, "subtype");
      assert Atom(EditionAtoms[2]) == Lookup(hash, "ubertype") && Atom(EditionAtoms[3]) == Lookup(hash, "language");
      assert Atom(EditionAtoms[4]) == Lookup(hash, "link") && Atom(EditionAtoms[5]) == Lookup(hash, "title");
      assert Atom(EditionAtoms[6]) == Lookup(hash, "titleLevel") && Atom(EditionAtoms[7]) == Lookup(hash, "titleType");
    }

    /**
     * The state `Edition.new` reaches from a nested `:edition` hash: the atoms
     * come from its attributes, the ubertype is derived from type and subtype,
     * and the link, title and extras of its children override the atoms.
     */
    ghost predicate BuiltFromEdition(edition: EditionNode)
      reads this, extraList
    {
      var atoms := if edition.attributes.Some? then edition.attributes.value else map[];
      var children := if edition.children.Some? then edition.children.value else EditionChildren(None, None, None);
      var titleAttributes := if children.title.Some? && children.title.value.attributes.Some?
                             then children.title.value.attributes else None;
      var extras := if children.extra.Some? then children.extra.value else [];
      && editionType == Lookup(atoms, "type")
      && subtype == Lookup(atoms, "subtype")
      && language == Lookup(atoms, "language")
      && ubertype == Ubertype(editionType, subtype)
      && link == (if children.link.Some? then children.link else Lookup(atoms, "link"))
      && biblioId == (if children.link.Some? then BiblioId(children.link.value) else None)
      && title == (if children.title.Some? then children.title.value.value else Lookup(atoms, "title"))
      && titleLevel == (if titleAttributes.Some? then Lookup(titleAttributes.value, "level") else Lookup(atoms, "titleLevel"))
      && titleType == (if titleAttributes.Some? then Lookup(titleAttributes.value, "type") else Lookup(atoms, "titleType"))
      && preview == None
      && |extraList| == |extras| && forall i :: 0 <= i < |extras| ==> BuiltFrom(extraList[i], extras[i])
    }

    /** The nested branch of `initialize`, run on an edition whose fields are all still nil. */
    method InitializeFromEdition(edition: EditionNode)
      requires ExtrasHaveUnits(Some(Nested(edition)))
      requires editionType == subtype == ubertype == language == link == None
      requires title == titleLevel == titleType == None
      requires biblioId == None && extraList == [] && preview == None
      modifies this
      ensures BuiltFromEdition(edition)
    {
      if edition.attributes.Some? {
        PopulateAtomFromHash(edition.attributes.value);
      }
      ubertype := Ubertype(editionType, subtype);
      if edition.children.Some? {
        ApplyChildren(edition.children.value);
      }
    }

    /**
     * The `children` part of the nested branch: link and bibliography id, title, extras.
     * The extras are appended to the list, which `initialize` has just set to empty.
     */
    method ApplyChildren(children: EditionChildren)
      requires children.extra.Some? ==> forall e :: e in children.extra.value ==> "unit" in e.attributes
      requires extraList == []
      modifies this
      ensures editionType == old(editionType) && subtype == old(subtype) && ubertype == old(ubertype)
      ensures language == old(language) && preview == old(preview)
      ensures link == (if children.link.Some? then children.link else old(link))
      ensures biblioId == (if children.link.Some? then BiblioId(children.link.value) else old(biblioId))
      ensures title == (if children.title.Some? then children.title.value.value else old(title))
      ensures var attributes := if children.title.Some? then children.title.value.attributes else None;
        && titleLevel == (if attributes.Some? then Lookup(attributes.value, "level") else old(titleLevel))
        && titleType == (if attributes.Some? then Lookup(attributes.value, "type") else old(titleType))
      ensures children.extra.None? ==> extraList == old(extraList)
      ensures children.extra.Some? ==>
        |extraList| == |children.extra.value| &&
        forall i :: 0 <= i < |extraList| ==> BuiltFrom(extraList[i], children.extra.value[i])
    {
      if children.link.Some? {
        link := children.link;
        biblioId := BiblioId(children.link.value);
      }
      if children.title.Some? {
        title := children.title.value.value;
        if children.title.value.attributes.Some? {
          titleLevel := Lookup(children.title.value.attributes.value, "level");
          titleType := Lookup(children.title.value.attributes.value, "type");
        }
      }
      if children.extra.Some? {
        var extras := NewExtraList(children.extra.value);
        assert extraList + extras == extras;
        extraList := extraList + extras;
      }
    }

    /** `Edition.new(init)`: all fields nil, then filled from the nested or the flat hash. */
    constructor (init: Option<EditionInit>)
      requires ExtrasHaveUnits(init)
      ensures init.None? ==>
        editionType == subtype == ubertype == language == link == title == titleLevel == titleType == None &&
        biblioId == None && extraList == [] && preview == None
      ensures init.Some? && init.value.Flat? ==>
        var atoms := init.value.atoms;
        editionType == Lookup(atoms, "type") && subtype == Lookup(atoms, "subtype") &&
        ubertype == Lookup(atoms, "ubertype") && language == Lookup(atoms, "language") &&
        link == Lookup(atoms, "link") && title == Lookup(atoms, "title") &&
        titleLevel == Lookup(atoms, "titleLevel") && titleType == Lookup(atoms, "titleType") &&
        biblioId == None && extraList == [] && preview == None
      ensures init.Some? && init.value.Nested? ==> BuiltFromEdition(init.value.edition)
    {
      editionType, subtype, ubertype, language, link := None, None, None, None, None;
      biblioId, extraList, preview := None, [], None;
      title, titleLevel, titleType := None, None, None;
      new;
      if init.Some? {
        match init.value
        case Nested(edition) =>
          InitializeFromEdition(edition);
        case Flat(atoms) =>
          PopulateAtomFromHash(atoms);
      }
    }
  }

  /** The `@extraList << Extra.new(...)` loop over the extra children of an edition. */
  method NewExtraList(extras: seq<ExtraNode>) returns (list: seq<Extra>)
    requires forall e :: e in extras ==> "unit" in e.attributes
    ensures |list| == |extras| && forall i :: 0 <= i < |extras| ==> BuiltFrom(list[i], extras[i])
  {
    list := [];
    for i := 0 to |extras|
      invariant |list| == i
      invariant forall j :: 0 <= j < i ==> BuiltFrom(list[j], extras[j])
    {
      var attributes := extras[i].attributes;
      var extra := new Extra(extras[i].value, attributes["unit"], Lookup(attributes, "corresp"),
                             Lookup(attributes, "from"), Lookup(attributes, "to"));
      list := list + [extra];
    }
  }
}
