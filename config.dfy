/**
 * The `/config` commands: one key/value store, owned by the view command and
 * updated in place by the set, delete and clear commands. The store is a
 * JavaScript `Map`, so it remembers insertion order: it is modelled as the
 * sequence of its entries, without repeated keys.
 */
module Config {
  import opened Wrappers
  import opened Ascii
  import opened InteractionErrors

  type Entry = (string, string)

  /** The keys the entries hold. */
  function Keys(entries: seq<Entry>): set<string> {
    if entries == [] then {} else {entries[0].0} + Keys(entries[1..])
  }

  /** No key occurs twice, as in a Map. */
  predicate DistinctKeys(entries: seq<Entry>) {
    entries == [] || (entries[0].0 !in Keys(entries[1..]) && DistinctKeys(entries[1..]))
  }

  /** The key/value mapping the entries hold (a later duplicate, which a Map never has, would be hidden). */
  function AsMap(entries: seq<Entry>): (m: map<string, string>)
    ensures m.Keys == Keys(entries)
  {
    if entries == [] then map[]
    else AsMap(entries[1..])[entries[0].0 := entries[0].1]
  }

  lemma {:induction false} KeysConcat(a: seq<Entry>, b: seq<Entry>)
    ensures Keys(a + b) == Keys(a) + Keys(b)
  {
    if a == [] {
      assert a + b == b;
    } else {
      assert (a + b)[1..] == a[1..] + b;
      KeysConcat(a[1..], b);
    }
  }

  lemma {:induction false} DistinctConcat(a: seq<Entry>, b: seq<Entry>)
    ensures DistinctKeys(a + b) <==> DistinctKeys(a) && DistinctKeys(b) && Keys(a) !! Keys(b)
  {
    if a == [] {
      assert a + b == b;
    } else {
      assert (a + b)[1..] == a[1..] + b;
      KeysConcat(a[1..], b);
      DistinctConcat(a[1..], b);
    }
  }

  /** A Map's size is its number of entries. */
  lemma {:induction false} SizeOfMap(entries: seq<Entry>)
    requires DistinctKeys(entries)
    ensures |AsMap(entries)| == |entries|
  {
    if entries != [] {
      SizeOfMap(entries[1..]);
    }
  }

  /** `Map.prototype.set`: an existing key keeps its place and takes the new value; a new key goes last. */
  function SetEntry(entries: seq<Entry>, key: string, value: string): (r: seq<Entry>)
    ensures Keys(r) == Keys(entries) + {key}
    ensures |r| == |entries| + (if key in Keys(entries) then 0 else 1)
    ensures key !in Keys(entries) ==> r == entries + [(key, value)]
    ensures forall i :: 0 <= i < |entries| && entries[i].0 != key ==> r[i] == entries[i]
  {
    if entries == [] then [(key, value)]
    else if entries[0].0 == key then
      assert ([(key, value)] + entries[1..])[1..] == entries[1..];
      [(key, value)] + entries[1..]
    else
      var rest := SetEntry(entries[1..], key, value);
      var r := [entries[0]] + rest;
      assert r[1..] == rest;
      assert forall i :: 1 <= i < |entries| ==> entries[i] == entries[1..][i - 1] && r[i] == rest[i - 1];
      assert key !in Keys(entries) ==> entries[1..] + [(key, value)] == (entries + [(key, value)])[1..];
      r
  }

  /** Two updates of different keys commute. */
  lemma UpdatesCommute(m: map<string, string>, k1: string, v1: string, k2: string, v2: string)
    requires k1 != k2
    ensures m[k1 := v1][k2 := v2] == m[k2 := v2][k1 := v1]
  {
  }

  /** After a set, the store maps the key to the value and nothing else changes. */
  lemma {:induction false} SetEntryStore(entries: seq<Entry>, key: string, value: string)
    ensures AsMap(SetEntry(entries, key, value)) == AsMap(entries)[key := value]
  {
    if entries != [] {
      var rest := entries[1..];
      var r := SetEntry(entries, key, value);
      if entries[0].0 != key {
        SetEntryStore(rest, key, value);
        assert r[1..] == SetEntry(rest, key, value);
        UpdatesCommute(AsMap(rest), key, value, entries[0].0, entries[0].1);
      } else {
        assert r[1..] == rest;
      }
    }
  }

  /** A set never repeats a key. */
  lemma {:induction false} SetEntryDistinct(entries: seq<Entry>, key: string, value: string)
    requires DistinctKeys(entries)
    ensures DistinctKeys(SetEntry(entries, key, value))
  {
    if entries != [] && entries[0].0 != key {
      var rest := SetEntry(entries[1..], key, value);
      SetEntryDistinct(entries[1..], key, value);
      var r := [entries[0]] + rest;
      assert SetEntry(entries, key, value) == r;
      assert r[1..] == rest;
    } else if entries != [] {
      var r := SetEntry(entries, key, value);
      assert r[1..] == entries[1..];
    }
  }

  /** `Map.prototype.delete`: the entry for `key`, if any, is gone; the others keep their order. */
  function DeleteEntry(entries: seq<Entry>, key: string): (r: seq<Entry>)
    ensures AsMap(r) == AsMap(entries) - {key}
    ensures Keys(r) == Keys(entries) - {key}
    ensures |r| <= |entries|
    ensures DistinctKeys(entries) ==> DistinctKeys(r)
    ensures DistinctKeys(entries) ==> |r| == |entries| - (if key in Keys(entries) then 1 else 0)
    ensures key !in Keys(entries) ==> r == entries
  {
    if entries == [] then []
    else if entries[0].0 == key then DeleteEntry(entries[1..], key)
    else [entries[0]] + DeleteEntry(entries[1..], key)
  }

  /** The key at any position is one of the keys. */
  lemma {:induction false} KeyAt(entries: seq<Entry>, i: nat)
    requires i < |entries|
    ensures entries[i].0 in Keys(entries)
  {
    if i > 0 {
      KeyAt(entries[1..], i - 1);
    }
  }

  /** In a store, deleting the key at position i removes exactly that entry and keeps the others in order. */
  lemma {:induction false} DeleteEntryAt(entries: seq<Entry>, i: nat)
    requires DistinctKeys(entries) && i < |entries|
    ensures DeleteEntry(entries, entries[i].0) == entries[..i] + entries[i + 1..]
  {
    var key := entries[i].0;
    var rest := entries[1..];
    if i == 0 {
      assert DeleteEntry(entries, key) == DeleteEntry(rest, key) == rest;
    } else {
      assert rest[i - 1] == entries[i];
      KeyAt(rest, i - 1);
      DeleteEntryAt(rest, i - 1);
      assert DeleteEntry(entries, key) == [entries[0]] + (rest[..i - 1] + rest[i..]);
      DropAfterHead(entries, i);
    }
  }

  lemma DropAfterHead(xs: seq<Entry>, i: nat)
    requires 0 < i < |xs|
    ensures [xs[0]] + (xs[1..][..i - 1] + xs[1..][i..]) == xs[..i] + xs[i + 1..]
  {
    assert [xs[0]] + xs[1..][..i - 1] == xs[..i];
  }

  /** Deleting a key twice is the same as deleting it once. */
  lemma DeleteIdempotent(entries: seq<Entry>, key: string)
    ensures DeleteEntry(DeleteEntry(entries, key), key) == DeleteEntry(entries, key)
  {
  }

  /** The `reduce` in `handleConfig`: each entry assigned in turn to the object built so far. */
  function AssignAll(obj: seq<Entry>, rest: seq<Entry>): (r: seq<Entry>)
    ensures Keys(r) == Keys(obj) + Keys(rest)
    ensures DistinctKeys(obj) ==> DistinctKeys(r)
    decreases |rest|
  {
    if rest == [] then obj
    else
      var next := SetEntry(obj, rest[0].0, rest[0].1);
      if DistinctKeys(obj) then
        SetEntryDistinct(obj, rest[0].0, rest[0].1);
        AssignAll(next, rest[1..])
      else AssignAll(next, rest[1..])
  }

  /**
   * The object `/config view` renders: it holds every stored key and never
   * repeats one, and for a store it is the store itself, in the store's order.
   */
  function ConfigObject(entries: seq<Entry>): (r: seq<Entry>)
    ensures Keys(r) == Keys(entries) && DistinctKeys(r)
    ensures DistinctKeys(entries) ==> r == entries
  {
    assert [] + entries == entries;
    if DistinctKeys(entries) then
      AssignAllFresh([], entries);
      AssignAll([], entries)
    else AssignAll([], entries)
  }

  lemma {:induction false} AssignAllFresh(obj: seq<Entry>, rest: seq<Entry>)
    requires DistinctKeys(obj + rest)
    ensures AssignAll(obj, rest) == obj + rest
    decreases |rest|
  {
    if rest != [] {
      DistinctConcat(obj, rest);
      KeysConcat([rest[0]], rest[1..]);
      assert [rest[0]] + rest[1..] == rest;
      assert rest[0].0 !in Keys(obj);
      var next := SetEntry(obj, rest[0].0, rest[0].1);
      assert next == obj + [rest[0]];
      assert next + rest[1..] == obj + rest;
      AssignAllFresh(next, rest[1..]);
    }
  }

  /**
   * The same `reduce` as the code runs it on a plain object: `obj["__proto__"] = value`
   * calls the prototype setter, which ignores a string, so that entry is dropped.
   */
  function AssignAllAsWritten(obj: seq<Entry>, rest: seq<Entry>): (r: seq<Entry>)
    ensures Keys(r) == Keys(obj) + (Keys(rest) - {ProtoKey})
    decreases |rest|
  {
    if rest == [] then obj
    else if rest[0].0 == ProtoKey then AssignAllAsWritten(obj, rest[1..])
    else AssignAllAsWritten(SetEntry(obj, rest[0].0, rest[0].1), rest[1..])
  }

  const ProtoKey := "__proto__"

  /** The object as the code builds it: every stored key except `__proto__`. */
  function ConfigObjectAsWritten(entries: seq<Entry>): (r: seq<Entry>)
    ensures Keys(r) == Keys(entries) - {ProtoKey}
  {
    AssignAllAsWritten([], entries)
  }

  /** A store holding only the key `__proto__` is not empty, yet the view as written shows `{}`. */
  lemma ProtoKeyDropped(value: string)
    ensures var entries := [(ProtoKey, value)];
      DistinctKeys(entries) && entries != []
      && ConfigObjectAsWritten(entries) == [] && Stringify(ConfigObjectAsWritten(entries)) == "{}"
      && ConfigObject(entries) == entries
  {
    var entries := [(ProtoKey, value)];
    assert entries[1..] == [];
    assert AssignAllAsWritten([], entries) == AssignAllAsWritten([], []);
    assert AssignAll([], entries) == AssignAll(SetEntry([], ProtoKey, value), []);
  }

  function HexDigit(d: nat): (c: char)
    requires d < 16
    ensures IsDigit(c) || 'a' <= c <= 'f'
  {
    if d < 10 then DigitChar(d) else ('a' as int + d - 10) as char
  }

  /** How `JSON.stringify` writes one character inside a string literal. */
  function JsonChar(c: char): (r: string)
    ensures '\n' !in r
  {
    if c == '"' then "\\\""
    else if c == '\\' then "\\\\"
    else if c == '\U{08}' then "\\b"
    else if c == '\U{0C}' then "\\f"
    else if c == '\n' then "\\n"
    else if c == '\r' then "\\r"
    else if c == '\t' then "\\t"
    else if (c as int) < 0x20 then "\\u00" + [HexDigit(c as int / 16), HexDigit(c as int % 16)]
    else [c]
  }

  /** The escaped text never holds a line break, so a property fits on one line. */
  function JsonEscape(s: string): (r: string)
    ensures '\n' !in r
  {
    if s == [] then "" else JsonChar(s[0]) + JsonEscape(s[1..])
  }

  function JsonString(s: string): (r: string)
    ensures '\n' !in r
  {
    "\"" + JsonEscape(s) + "\""
  }

  /** One property of the output, indented by two spaces. */
  function PropertyLine(e: Entry): (r: string)
    ensures '\n' !in r
  {
    "  " + JsonString(e.0) + ": " + JsonString(e.1)
  }

  /**
   * `JSON.stringify(obj, null, 2)` for an object of string properties: `{}`
   * exactly for the empty object, otherwise every property occurs in it
   * (`StringifyLines` gives the layout, line by line).
   */
  function Stringify(obj: seq<Entry>): (r: string)
    ensures r == "{}" <==> obj == []
    ensures forall i :: 0 <= i < |obj| ==> Contains(r, PropertyLine(obj[i]))
  {
    if obj == [] then "{}"
    else
      var lines := seq(|obj|, i requires 0 <= i < |obj| => PropertyLine(obj[i]));
      var body := Join(lines, ",\n");
      forall i | 0 <= i < |obj|
        ensures Contains("{\n" + body + "\n}", PropertyLine(obj[i]))
      {
        assert lines[i] == PropertyLine(obj[i]);
        JoinContainsPart(lines, ",\n", i);
        ContainsSuffixPart("{\n", body, lines[i]);
        ContainsExtended("{\n" + body, "\n}", lines[i]);
      }
      assert ("{\n" + body + "\n}")[1] == '\n';
      "{\n" + body + "\n}"
  }

  /** `s.split("\n")`: the texts between line breaks, empty ones included. */
  function Lines(s: string): (ls: seq<string>)
    ensures |ls| > 0
  {
    if s == [] then [""]
    else if s[0] == '\n' then [""] + Lines(s[1..])
    else
      var rest := Lines(s[1..]);
      [[s[0]] + rest[0]] + rest[1..]
  }

  lemma {:induction false} LinesOfSingle(s: string)
    requires '\n' !in s
    ensures Lines(s) == [s]
  {
    if s != [] {
      LinesOfSingle(s[1..]);
      assert [s[0]] + s[1..] == s;
    }
  }

  /** A line break splits the text into the lines before it and the lines after it. */
  lemma {:induction false} LinesOfBreak(a: string, b: string)
    ensures Lines(a + "\n" + b) == Lines(a) + Lines(b)
  {
    if a == [] {
      assert a + "\n" + b == "\n" + b;
      assert ("\n" + b)[1..] == b;
    } else {
      assert (a + "\n" + b)[1..] == a[1..] + "\n" + b;
      assert (a + "\n" + b)[0] == a[0];
      LinesOfBreak(a[1..], b);
    }
  }

  /** Each part followed by a comma, except the last. */
  function WithCommas(parts: seq<string>): (r: seq<string>)
    ensures |r| == |parts|
    ensures forall k :: 0 <= k < |parts| ==> r[k] == parts[k] + (if k < |parts| - 1 then "," else "")
  {
    if |parts| <= 1 then
      assert forall k :: 0 <= k < |parts| ==> parts[k] + "" == parts[k];
      parts
    else [parts[0] + ","] + WithCommas(parts[1..])
  }

  lemma {:induction false} LinesOfJoin(parts: seq<string>)
    requires |parts| > 0
    requires forall k :: 0 <= k < |parts| ==> '\n' !in parts[k]
    ensures Lines(Join(parts, ",\n")) == WithCommas(parts)
  {
    if |parts| == 1 {
      LinesOfSingle(parts[0]);
    } else {
      var rest := Join(parts[1..], ",\n");
      assert Join(parts, ",\n") == (parts[0] + ",") + "\n" + rest;
      LinesOfBreak(parts[0] + ",", rest);
      LinesOfSingle(parts[0] + ",");
      LinesOfJoin(parts[1..]);
    }
  }

  /**
   * The layout of `JSON.stringify(obj, null, 2)` for a non-empty object: "{" on
   * the first line, then property i on line i + 1, in order, with a comma after
   * every property but the last, then "}" on the last line.
   */
  lemma StringifyLines(obj: seq<Entry>)
    requires obj != []
    ensures var ls := Lines(Stringify(obj));
      && |ls| == |obj| + 2 && ls[0] == "{" && ls[|obj| + 1] == "}"
      && forall i :: 0 <= i < |obj| ==> ls[i + 1] == PropertyLine(obj[i]) + (if i < |obj| - 1 then "," else "")
  {
    var lines := seq(|obj|, i requires 0 <= i < |obj| => PropertyLine(obj[i]));
    var w := WithCommas(lines);
    var ls := Lines(Stringify(obj));
    StringifySplit(obj, lines);
    Framed("{", w, "}");
    forall i | 0 <= i < |obj|
      ensures ls[i + 1] == PropertyLine(obj[i]) + (if i < |obj| - 1 then "," else "")
    {
      assert ls[i + 1] == w[i] == lines[i] + (if i < |lines| - 1 then "," else "");
    }
  }

  lemma StringifySplit(obj: seq<Entry>, lines: seq<string>)
    requires obj != [] && lines == seq(|obj|, i requires 0 <= i < |obj| => PropertyLine(obj[i]))
    ensures Lines(Stringify(obj)) == ["{"] + (WithCommas(lines) + ["}"])
  {
    var body := Join(lines, ",\n");
    assert Stringify(obj) == "{" + "\n" + (body + "\n" + "}");
    LinesFramed("{", body, "}");
    LinesOfJoin(lines);
  }

  /** A text between a first and a last line that hold no line break. */
  lemma LinesFramed(a: string, body: string, b: string)
    requires '\n' !in a && '\n' !in b
    ensures Lines(a + "\n" + (body + "\n" + b)) == [a] + (Lines(body) + [b])
  {
    LinesOfBreak(a, body + "\n" + b);
    LinesOfBreak(body, b);
    LinesOfSingle(a);
    LinesOfSingle(b);
  }

  lemma Framed(a: string, w: seq<string>, b: string)
    ensures var ls := [a] + (w + [b]);
      |ls| == |w| + 2 && ls[0] == a && ls[|w| + 1] == b && forall i :: 0 <= i < |w| ==> ls[i + 1] == w[i]
  {
  }

  function EmptyConfigText(commandId: string): string {
    "The configuration is empty. Set your first key using </config edit set:" + commandId + ">."
  }

  function ViewContent(entries: seq<Entry>): string {
    "Current configuration:\n```json\n" + Stringify(ConfigObject(entries)) + "\n```"
  }

  const ClearedText := "All configuration values have been cleared."

  /** The command that owns the store and shows it (`/config view`). */
  class ConfigCommand {
    var entries: seq<Entry>

    ghost predicate Valid()
      reads this
    {
      DistinctKeys(entries)
    }

    /** The store as a mapping. */
    function Store(): map<string, string>
      reads this
    {
      AsMap(entries)
    }

    constructor()
      ensures Valid() && entries == []
    {
      entries := [];
    }

    /**
     * `handleConfig`: an empty store is an error that points to `/config edit set`;
     * otherwise the reply lists every entry as JSON. The store is only read.
     */
    method HandleConfig(commandId: string) returns (r: Result<string, InteractionError>)
      requires Valid()
      ensures entries == [] <==> r.Err?
      ensures r.Err? <==> |Store()| == 0
      ensures r.Err? ==> r.error == NewInteractionError(EmptyConfigText(commandId), None)
      ensures r.Ok? ==> r.value == "Current configuration:\n```json\n" + Stringify(entries) + "\n```"
    {
      if |entries| == 0 {
        SizeOfMap(entries);
        return Err(NewInteractionError(EmptyConfigText(commandId), None));
      }
      SizeOfMap(entries);
      r := Ok(ViewContent(entries));
    }
  }

  /** `/config edit set`. */
  class ConfigSetCommand {
    const configCommand: ConfigCommand

    constructor(configCommand: ConfigCommand)
      ensures this.configCommand == configCommand
    {
      this.configCommand := configCommand;
    }

    method HandleConfigSet(key: string, value: string) returns (reply: string)
      requires configCommand.Valid()
      modifies configCommand
      ensures configCommand.Valid()
      ensures configCommand.entries == SetEntry(old(configCommand.entries), key, value)
      ensures configCommand.Store() == old(configCommand.Store())[key := value]
      ensures |configCommand.entries| == |old(configCommand.entries)| + (if key in old(configCommand.Store()) then 0 else 1)
      ensures reply == "Configuration updated: `" + key + "` set to `" + value + "`."
    {
      SetEntryStore(configCommand.entries, key, value);
      SetEntryDistinct(configCommand.entries, key, value);
      configCommand.entries := SetEntry(configCommand.entries, key, value);
      reply := "Configuration updated: `" + key + "` set to `" + value + "`.";
    }
  }

  /** `/config edit delete`. */
  class ConfigDeleteCommand {
    const configCommand: ConfigCommand

    constructor(configCommand: ConfigCommand)
      ensures this.configCommand == configCommand
    {
      this.configCommand := configCommand;
    }

    method HandleConfigDelete(key: string) returns (reply: string)
      requires configCommand.Valid()
      modifies configCommand
      ensures configCommand.Valid()
      ensures configCommand.entries == DeleteEntry(old(configCommand.entries), key)
      ensures configCommand.Store() == old(configCommand.Store()) - {key}
      ensures key !in old(configCommand.Store()) ==> configCommand.entries == old(configCommand.entries)
      ensures reply == "Configuration key `" + key + "` removed."
    {
      configCommand.entries := DeleteEntry(configCommand.entries, key);
      reply := "Configuration key `" + key + "` removed.";
    }
  }

  /** `/config clear`. */
  class ConfigClearCommand {
    const configCommand: ConfigCommand

    constructor(configCommand: ConfigCommand)
      ensures this.configCommand == configCommand
    {
      this.configCommand := configCommand;
    }

    method HandleConfigClear() returns (reply: string)
      modifies configCommand
      ensures configCommand.Valid() && configCommand.entries == [] && configCommand.Store() == map[]
      ensures reply == ClearedText
    {
      configCommand.entries := [];
      reply := ClearedText;
    }
  }

  /** A view right after a clear reports the empty configuration. */
  method ClearThenView(store: ConfigCommand, commandId: string) returns (r: Result<string, InteractionError>)
    modifies store
    ensures r == Err(NewInteractionError(EmptyConfigText(commandId), None))
  {
    var clear := new ConfigClearCommand(store);
    var _ := clear.HandleConfigClear();
    r := store.HandleConfig(commandId);
  }
}
