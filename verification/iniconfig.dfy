/**
 * The part of Python's `configparser` the configuration readers rely on: a
 * parsed file is a DEFAULT mapping plus named sections in file order, option
 * names are stored lower-cased, and a read through a section falls back to
 * DEFAULT when the section does not set the option.
 */
module IniConfig {
  import opened Wrappers
  import opened Text
  import opened Errors

  /**
   * An option's text, with the integer `int()` reads from it (None when
   * `int()` would raise ValueError).
   */
  datatype Value = Value(text: string, number: Option<int>)

  /** Options of one section, keyed by their lower-cased names. */
  type Entries = map<string, Value>

  datatype Section = Section(name: string, entries: Entries)

  /** A `ConfigParser` after `read_file`. */
  datatype Parser = Parser(defaults: Entries, sections: seq<Section>)

  const DefaultSection := "DEFAULT"

  /** What `read_file` guarantees: section names are unique and DEFAULT is not a section. */
  predicate WellFormed(p: Parser) {
    && (forall i :: 0 <= i < |p.sections| ==> p.sections[i].name != DefaultSection)
    && (forall i, j :: 0 <= i < j < |p.sections| ==> p.sections[i].name != p.sections[j].name)
  }

  /** A `SectionProxy`: one section's options seen over the DEFAULT options. */
  datatype SectionView = SectionView(name: string, entries: Entries, defaults: Entries)

  /** `optionxform`: option names are compared lower-cased. */
  function OptionKey(option: string): string {
    Lower(option)
  }

  /** `option in section`. */
  predicate HasOption(v: SectionView, option: string) {
    OptionKey(option) in v.entries || OptionKey(option) in v.defaults
  }

  /** `section.get(option)`: the section's own value first, then DEFAULT's, else None. */
  function Get(v: SectionView, option: string): (r: Option<Value>)
    ensures r.Some? <==> HasOption(v, option)
    ensures OptionKey(option) in v.entries ==> r == Some(v.entries[OptionKey(option)])
    ensures OptionKey(option) !in v.entries && OptionKey(option) in v.defaults
            ==> r == Some(v.defaults[OptionKey(option)])
  {
    var key := OptionKey(option);
    if key in v.entries then Some(v.entries[key])
    else if key in v.defaults then Some(v.defaults[key])
    else None
  }

  /**
   * `section.getint(option)` on a section proxy, whose fallback defaults to
   * None: an absent option reads as None, a present one must hold an integer.
   */
  function GetInt(v: SectionView, option: string): (r: Result<Option<int>, Error>)
    ensures !HasOption(v, option) ==> r == Success(None)
    ensures HasOption(v, option) ==>
              (r.Success? <==> Get(v, option).value.number.Some?)
              && (r.Success? ==> r.value == Get(v, option).value.number)
              && (r.Failure? ==> r.error.ValueError?)
  {
    match Get(v, option)
    case None => Success(None)
    case Some(value) =>
      match value.number
      case Some(n) => Success(Some(n))
      case None => Failure(ValueError("invalid literal for int() with base 10: '" + value.text + "'"))
  }

  /** `RawConfigParser.BOOLEAN_STATES`, looked up lower-cased. */
  function ParseBoolean(text: string): (r: Option<bool>)
    ensures r == Some(true) <==> Lower(text) in {"1", "yes", "true", "on"}
    ensures r == Some(false) <==> Lower(text) in {"0", "no", "false", "off"}
  {
    var key := Lower(text);
    if key in {"1", "yes", "true", "on"} then Some(true)
    else if key in {"0", "no", "false", "off"} then Some(false)
    else None
  }

  /** `section.getboolean(option, fallback=fallback)`. */
  function GetBoolean(v: SectionView, option: string, fallback: bool): (r: Result<bool, Error>)
    ensures !HasOption(v, option) ==> r == Success(fallback)
    ensures HasOption(v, option) ==>
              (r.Success? <==> ParseBoolean(Get(v, option).value.text).Some?)
    ensures HasOption(v, option) && r.Success? ==> Some(r.value) == ParseBoolean(Get(v, option).value.text)
    ensures r.Failure? ==> r.error == ValueError("Not a boolean: " + Get(v, option).value.text)
  {
    match Get(v, option)
    case None => Success(fallback)
    case Some(value) =>
      match ParseBoolean(value.text)
      case Some(b) => Success(b)
      case None => Failure(ValueError("Not a boolean: " + value.text))
  }

  /** The position of the first section called `name`, if any. */
  function FindSection(sections: seq<Section>, name: string): (r: Option<nat>)
    ensures r.None? <==> forall i :: 0 <= i < |sections| ==> sections[i].name != name
    ensures r.Some? ==> r.value < |sections| && sections[r.value].name == name
                        && forall i :: 0 <= i < r.value ==> sections[i].name != name
    decreases |sections|
  {
    if |sections| == 0 then None
    else if sections[0].name == name then Some(0)
    else match FindSection(sections[1..], name)
      case None => None
      case Some(i) => Some(i + 1)
  }

  /** `parser.has_section(name)`: DEFAULT is never counted as a section. */
  predicate HasSection(p: Parser, name: string) {
    name != DefaultSection && FindSection(p.sections, name).Some?
  }

  /** `name in parser`: true for DEFAULT and for every section. */
  predicate Contains(p: Parser, name: string) {
    name == DefaultSection || HasSection(p, name)
  }

  /** `parser[name]` for a section. */
  function View(p: Parser, name: string): (v: SectionView)
    requires HasSection(p, name)
    ensures v.name == name && v.defaults == p.defaults
    ensures exists i :: 0 <= i < |p.sections| && p.sections[i].name == name && v.entries == p.sections[i].entries
  {
    SectionView(name, p.sections[FindSection(p.sections, name).value].entries, p.defaults)
  }

  /** `parser["DEFAULT"]`: no options of its own beyond the defaults. */
  function DefaultView(p: Parser): (v: SectionView)
    ensures forall option :: HasOption(v, option) <==> OptionKey(option) in p.defaults
  {
    SectionView(DefaultSection, map[], p.defaults)
  }

  /** `parser[name]` for any name the parser contains. */
  function Proxy(p: Parser, name: string): (v: SectionView)
    requires Contains(p, name)
    ensures v.name == name && v.defaults == p.defaults
  {
    if name == DefaultSection then DefaultView(p) else View(p, name)
  }

  /** The proxy for one of the parser's sections. */
  function ViewOf(s: Section, defaults: Entries): SectionView {
    SectionView(s.name, s.entries, defaults)
  }

  /** In a well-formed parser, the proxy for a listed section is that section over the defaults. */
  lemma ViewOfListed(p: Parser, k: nat)
    requires WellFormed(p) && k < |p.sections|
    ensures HasSection(p, p.sections[k].name)
    ensures View(p, p.sections[k].name) == ViewOf(p.sections[k], p.defaults)
  {
  }
}
