/**
 * Model of src/BenchMatcha/config.py: the `Config` defaults and
 * `update_config_from_pyproject`, which copies the `[tool.BenchMatcha]`
 * table of an already-decoded pyproject file onto existing attributes of
 * `Config` and skips every other key.
 */
module Configuration {
  import opened Wrappers

  /** A decoded TOML value. */
  datatype Value =
    | Str(s: string)
    | Int(i: int)
    | Bool(b: bool)
    | Array(items: seq<Value>)
    | Table(entries: map<string, Value>)

  /** `.get` called on a decoded value that is not a table raises
      AttributeError; `key` is the table that was expected. */
  datatype ConfigError = AttributeError(key: string)

  /** The attributes `Config` declares; `hasattr` holds for exactly these. */
  const Attributes: set<string> := {"color", "line_color", "font"}

  const DefaultFont: string := "Space Grotesk Light, Courier New, monospace"

  /** The three attributes of `Config` as a value. */
  datatype ConfigState = ConfigState(color: Value, lineColor: Value, font: Value)

  /** `getattr(Config, key)` for a declared attribute. */
  function Attr(s: ConfigState, key: string): (r: Value)
    requires key in Attributes
    ensures r == s.color || r == s.lineColor || r == s.font
  {
    if key == "color" then s.color
    else if key == "line_color" then s.lineColor
    else s.font
  }

  /** The state after applying a section: every declared attribute named in
      the section takes the section's value, every other one keeps its
      value, and keys that are not attributes have no effect. */
  function ApplySection(s: ConfigState, section: map<string, Value>): (t: ConfigState)
    ensures forall key <- Attributes :: key in section ==> Attr(t, key) == section[key]
    ensures forall key <- Attributes :: key !in section ==> Attr(t, key) == Attr(s, key)
  {
    ConfigState(
      if "color" in section then section["color"] else s.color,
      if "line_color" in section then section["line_color"] else s.lineColor,
      if "font" in section then section["font"] else s.font)
  }

  /** `data.get("tool", {}).get("BenchMatcha", {})`: a missing table reads
      as empty, a present value that is not a table raises. */
  function Section(data: map<string, Value>): (r: Result<map<string, Value>, ConfigError>)
    ensures "tool" !in data ==> r == Success(map[])
    ensures "tool" in data && !data["tool"].Table? ==> r == Failure(AttributeError("tool"))
    ensures "tool" in data && data["tool"].Table? && "BenchMatcha" !in data["tool"].entries
      ==> r == Success(map[])
    ensures "tool" in data && data["tool"].Table? && "BenchMatcha" in data["tool"].entries
      ==> var section := data["tool"].entries["BenchMatcha"];
          r == if section.Table? then Success(section.entries) else Failure(AttributeError("BenchMatcha"))
  {
    var tool := if "tool" in data then data["tool"] else Table(map[]);
    if !tool.Table? then Failure(AttributeError("tool"))
    else
      var section := if "BenchMatcha" in tool.entries then tool.entries["BenchMatcha"] else Table(map[]);
      if !section.Table? then Failure(AttributeError("BenchMatcha"))
      else Success(section.entries)
  }

  /** `setattr(Config, key, value)` for a declared attribute. */
  function SetAttr(s: ConfigState, key: string, value: Value): (t: ConfigState)
    requires key in Attributes
    ensures Attr(t, key) == value
    ensures forall other <- Attributes :: other != key ==> Attr(t, other) == Attr(s, other)
  {
    if key == "color" then s.(color := value)
    else if key == "line_color" then s.(lineColor := value)
    else s.(font := value)
  }

  /** The three attributes determine the state: two states agree exactly
      when `getattr` agrees on every declared name. */
  lemma AttributesDetermineState(s: ConfigState, t: ConfigState)
    ensures s == t <==> forall key <- Attributes :: Attr(s, key) == Attr(t, key)
  {
    if forall key <- Attributes :: Attr(s, key) == Attr(t, key) {
      assert Attr(s, "color") == Attr(t, "color");
      assert Attr(s, "line_color") == Attr(t, "line_color");
      assert Attr(s, "font") == Attr(t, "font");
    }
  }

  function Restrict(m: map<string, Value>, keys: set<string>): map<string, Value>
  {
    map k | k in m && k in keys :: m[k]
  }

  /** `Config`: class attributes that the update overwrites in place. */
  class Config {
    var color: Value
    var lineColor: Value
    var font: Value

    function State(): ConfigState
      reads this
    {
      ConfigState(color, lineColor, font)
    }

    /** The class body; `prism` is the Prism colour palette of the plotting
        module, whose entries 3 and 4 are the default colours. */
    constructor (prism: seq<string>)
      requires |prism| > 4
      ensures color == Str(prism[3]) && lineColor == Str(prism[4]) && font == Str(DefaultFont)
    {
      color := Str(prism[3]);
      lineColor := Str(prism[4]);
      font := Str(DefaultFont);
    }

    /**
     * `update_config_from_pyproject`, given the decoded file `data`.  On
     * success it returns the keys it skipped (those it logs as unsupported).
     * The loop visits the section's keys in any order: they are distinct,
     * so the order cannot change the outcome.
     */
    method UpdateFromPyproject(data: map<string, Value>) returns (outcome: Result<set<string>, ConfigError>)
      modifies this
      ensures outcome.Failure? <==> Section(data).Failure?
      ensures outcome.Failure? ==> outcome.error == Section(data).error && State() == old(State())
      ensures outcome.Success? ==>
        && State() == ApplySection(old(State()), Section(data).value)
        && outcome.value == Section(data).value.Keys - Attributes
    {
      var found := Section(data);
      if found.Failure? {
        return Failure(found.error);
      }
      var section := found.value;
      var todo := section.Keys;
      var skipped: set<string> := {};
      ghost var done: set<string> := {};
      while todo != {}
        invariant todo <= section.Keys && done == section.Keys - todo
        invariant State() == ApplySection(old(State()), Restrict(section, done))
        invariant skipped == done - Attributes
      {
        var key :| key in todo;
        ApplyOneMore(old(State()), section, done, key);
        if key !in Attributes {
          skipped := skipped + {key};
        } else if key == "color" {
          color := section[key];
        } else if key == "line_color" {
          lineColor := section[key];
        } else {
          font := section[key];
        }
        todo := todo - {key};
        done := done + {key};
      }
      RestrictAll(section);
      outcome := Success(skipped);
    }
  }

  /** One more key of the section applied on top of the ones already done. */
  lemma ApplyOneMore(s: ConfigState, section: map<string, Value>, done: set<string>, key: string)
    requires key in section && key !in done
    ensures key !in Attributes ==>
      ApplySection(s, Restrict(section, done + {key})) == ApplySection(s, Restrict(section, done))
    ensures key in Attributes ==>
      ApplySection(s, Restrict(section, done + {key}))
        == SetAttr(ApplySection(s, Restrict(section, done)), key, section[key])
  {
  }

  lemma RestrictAll(m: map<string, Value>)
    ensures Restrict(m, m.Keys) == m
  {
  }

  // ---------------------------------------------------------------------
  // Properties of the update rule

  /** Keys that are not attributes of `Config` make no difference. */
  lemma UnknownKeysIgnored(s: ConfigState, section: map<string, Value>)
    ensures ApplySection(s, section) == ApplySection(s, Restrict(section, Attributes))
  {
  }

  /** Applying the same section twice is the same as applying it once. */
  lemma ApplyIdempotent(s: ConfigState, section: map<string, Value>)
    ensures ApplySection(ApplySection(s, section), section) == ApplySection(s, section)
  {
  }

  /** Without a `tool` table, or without a `BenchMatcha` table inside it,
      the section is empty and nothing changes. */
  lemma MissingSectionNoChange(s: ConfigState, data: map<string, Value>)
    requires "tool" !in data || (data["tool"].Table? && "BenchMatcha" !in data["tool"].entries)
    ensures Section(data) == Success(map[])
    ensures ApplySection(s, map[]) == s
  {
  }

  /** The file the unit tests decode: every attribute is updated and the
      unsupported key is skipped. */
  lemma PyprojectExample(s: ConfigState)
    ensures
      var section := map["color" := Str("#FFF"), "line_color" := Str("#333"),
                          "font" := Str("Courier"), "upsupported_key" := Str("test")];
      && Section(map["tool" := Table(map["BenchMatcha" := Table(section)])]) == Success(section)
      && ApplySection(s, section) == ConfigState(Str("#FFF"), Str("#333"), Str("Courier"))
      && section.Keys - Attributes == {"upsupported_key"}
  {
  }
}
