/**
 * Loading, normalising and validating dialogue scripts: the `DialogueParser`
 * of the batch dialogue tool.
 *
 * Files reach the model already read. A `.json` script arrives as its decoded
 * JSON value, and a `.txt` script as its list of lines. `json.loads` of one
 * JSON-line config is a parameter `decode`, which is `None` where Python raises
 * `JSONDecodeError`. The `os.path` functions are fields of a `PathOps` value.
 */
module DialogueParser {
  import opened Wrappers
  import opened PyText
  import opened JsonValues

  // ---------------------------------------------------------------------------
  // The loaded script
  // ---------------------------------------------------------------------------

  /** A speaker entry: its `ref_audio` path, if present, and its other fields. */
  datatype Speaker = Speaker(refAudio: Option<string>, rest: Record)

  /** The `speakers` section, keyed by role. */
  type Speakers = map<Json, Speaker>

  /** The script dict held in `self.data`: three sections, each possibly absent. */
  datatype Script = Script(metadata: Option<Json>, speakers: Option<Speakers>, dialogues: Option<seq<Record>>)

  /** Every exception the parser raises, one constructor per cause. */
  datatype ScriptError =
    | UnsupportedFormat(ext: string)
    | UnknownTxtFormat
    | InvalidJson
    | MalformedScript
    | MalformedRecord(index: nat)
    | MalformedSpeakers
    | UnhashableRole(role: Json)
    | MissingSpeakersSection
    | MissingDialoguesSection
    | SpeakerMissingRefAudio(name: Json)
    | RefAudioNotFound(name: Json, path: string)
    | LineMissingRole(index: nat)
    | UnknownRole(index: nat, role: Json)
    | LineMissingText(index: nat)

  /** A script file once read: its decoded JSON value (`None` when it is not JSON) and its lines. */
  datatype FileText = FileText(json: Option<Json>, lines: seq<string>)

  /** The `metadata` section the importers write. */
  function ImportMetadata(title: string): Json {
    JObj(map["title" := JStr(title), "default_language" := JStr("Chinese")])
  }

  /** `{role: {} for role in roles}`. */
  function EmptyConfigs(roles: set<Json>): (r: Speakers)
    ensures r.Keys == roles
    ensures forall k :: k in r ==> r[k] == Speaker(None, map[])
  {
    map k | k in roles :: Speaker(None, map[])
  }

  /** The roles that occur in a list of records. */
  function RolesOf(ds: seq<Record>): set<Json> {
    set i | 0 <= i < |ds| && "role" in ds[i] :: ds[i]["role"]
  }

  lemma RolesOfAppend(ds: seq<Record>, d: Record)
    ensures RolesOf(ds + [d]) == RolesOf(ds) + (if "role" in d then {d["role"]} else {})
  {
    var e := ds + [d];
    forall r | r in RolesOf(e) ensures r in RolesOf(ds) + (if "role" in d then {d["role"]} else {}) {
      var i :| 0 <= i < |e| && "role" in e[i] && e[i]["role"] == r;
      if i < |ds| {
        assert ds[i] == e[i];
      }
    }
    forall r | r in RolesOf(ds) ensures r in RolesOf(e) {
      var i :| 0 <= i < |ds| && "role" in ds[i] && ds[i]["role"] == r;
      assert e[i] == ds[i];
    }
    if "role" in d {
      assert e[|ds|] == d;
    }
  }

  /** The keys of `self.data.get("speakers", {})`: what `get_roles` lists. */
  function Roles(s: Script): set<Json> {
    if s.speakers.Some? then s.speakers.value.Keys else {}
  }

  // ---------------------------------------------------------------------------
  // _load_script: choosing a loader by file extension
  // ---------------------------------------------------------------------------

  datatype Format = JsonFormat | TxtFormat

  /** The index of the last `c` in `s`, or -1. */
  function LastIndexOf(s: string, c: char): (k: int)
    ensures -1 <= k < |s|
    ensures k >= 0 ==> s[k] == c
    ensures forall j :: k < j < |s| ==> s[j] != c
  {
    if s == [] then -1
    else if s[|s| - 1] == c then |s| - 1
    else
      var k := LastIndexOf(s[..|s| - 1], c);
      assert forall j :: k < j < |s| - 1 ==> s[j] == s[..|s| - 1][j];
      k
  }

  /**
   * `os.path.splitext(path)[1]` on POSIX: the last component's text from its
   * last dot, unless every character before that dot in the component is a
   * dot (so `.json` alone is a name, not an extension).
   */
  function Extension(path: string): string {
    var sep := LastIndexOf(path, '/');
    var dot := LastIndexOf(path, '.');
    if dot > sep && (exists j | sep < j < dot :: path[j] != '.') then path[dot..] else []
  }

  /**
   * `str.lower()` restricted to ASCII. Only ASCII letters lower-case to the
   * letters of `.json` and `.txt`, so the comparisons below are unaffected.
   */
  function LowerAscii(s: string): string {
    seq(|s|, i requires 0 <= i < |s| => if 'A' <= s[i] <= 'Z' then (s[i] as int + 32) as char else s[i])
  }

  /** `s` equals the lower-case word `w` up to the case of ASCII letters. */
  predicate SameIgnoringCase(s: string, w: string) {
    |s| == |w| &&
    forall i :: 0 <= i < |s| ==>
      s[i] == w[i] || ('a' <= w[i] <= 'z' && s[i] as int == w[i] as int - 32)
  }

  /** The loader `_load_script` dispatches to, or the `ValueError` it raises. */
  function ScriptFormat(path: string): Result<Format, ScriptError> {
    var ext := LowerAscii(Extension(path));
    if ext == ".json" then Ok(JsonFormat)
    else if ext == ".txt" then Ok(TxtFormat)
    else Err(UnsupportedFormat(ext))
  }

  lemma LowerAsciiMatches(s: string, w: string)
    requires forall i :: 0 <= i < |w| ==> w[i] == '.' || 'a' <= w[i] <= 'z'
    ensures LowerAscii(s) == w <==> SameIgnoringCase(s, w)
  {
    if SameIgnoringCase(s, w) {
      assert forall i :: 0 <= i < |s| ==> LowerAscii(s)[i] == w[i];
    }
    if LowerAscii(s) == w {
      forall i | 0 <= i < |s|
        ensures s[i] == w[i] || ('a' <= w[i] <= 'z' && s[i] as int == w[i] as int - 32)
      {
        assert LowerAscii(s)[i] == w[i];
      }
    }
  }

  /**
   * An extension equal to `.json` or `.txt` up to letter case selects that
   * loader; every other extension, the empty one included, is an error that
   * reports the lower-cased extension.
   */
  lemma FormatByExtension(path: string)
    ensures ScriptFormat(path) == Ok(JsonFormat) <==> SameIgnoringCase(Extension(path), ".json")
    ensures ScriptFormat(path) == Ok(TxtFormat) <==> SameIgnoringCase(Extension(path), ".txt")
    ensures ScriptFormat(path).Err? <==>
      !SameIgnoringCase(Extension(path), ".json") && !SameIgnoringCase(Extension(path), ".txt")
    ensures ScriptFormat(path).Err? ==> ScriptFormat(path).error == UnsupportedFormat(LowerAscii(Extension(path)))
  {
    LowerAsciiMatches(Extension(path), ".json");
    LowerAsciiMatches(Extension(path), ".txt");
  }

  /** An upper-case extension selects the JSON loader. */
  lemma UpperCaseExtension()
    ensures Extension("a/b.JSON") == ".JSON"
    ensures ScriptFormat("a/b.JSON") == Ok(JsonFormat)
  {
    var p := "a/b.JSON";
    assert p[1] == '/' && p[3] == '.' && p[2] != '.';
    assert LastIndexOf(p, '/') == 1;
    assert LastIndexOf(p, '.') == 3;
    assert LowerAscii(".JSON") == ".json";
  }

  /** A file named `.json` has no extension, so it is rejected. */
  lemma DotFileHasNoExtension()
    ensures Extension("a/.json") == []
    ensures ScriptFormat("a/.json") == Err(UnsupportedFormat([]))
  {
    var p := "a/.json";
    assert p[1] == '/' && p[2] == '.';
    assert LastIndexOf(p, '/') == 1;
    assert LastIndexOf(p, '.') == 2;
  }

  // ---------------------------------------------------------------------------
  // _load_json
  // ---------------------------------------------------------------------------

  /** `dialogue['role'] = dialogue.pop('speaker')`, done only when there is a `speaker` and no `role`. */
  function Renamed(d: Record): Record {
    if "speaker" in d && "role" !in d then (d - {"speaker"})["role" := d["speaker"]] else d
  }

  /**
   * After renaming, the record has a `role` exactly when it had a `role` or a
   * `speaker`; an existing `role` wins and the `speaker` is then kept; every
   * other field is untouched.
   */
  lemma RenamedFields(d: Record)
    ensures var r := Renamed(d);
      ("role" in r <==> "role" in d || "speaker" in d) &&
      ("role" in r ==> r["role"] == if "role" in d then d["role"] else d["speaker"]) &&
      ("speaker" in r <==> "speaker" in d && "role" in d) &&
      ("speaker" in r ==> r["speaker"] == d["speaker"]) &&
      (forall k :: k in d && k != "role" && k != "speaker" ==> k in r && r[k] == d[k]) &&
      (forall k :: k in r ==> k in d || k == "role")
  {
  }

  /** Renaming twice renames once: normalising an already-normalised script changes nothing. */
  lemma RenamedIdempotent(d: Record)
    ensures Renamed(Renamed(d)) == Renamed(d)
  {
  }

  /** A record whose role, if any, can go into a set. */
  predicate RoleHashable(d: Record) {
    "role" !in d || Hashable(d["role"])
  }

  /** An item the normalising loop gets through: a dict, with a hashable role when roles are collected. */
  predicate ItemOk(item: Json, collectRoles: bool) {
    item.JObj? && (!collectRoles || RoleHashable(Renamed(item.fields)))
  }

  /** The index of the first item the loop fails on, or the number of items. */
  function FirstBadItem(items: seq<Json>, collectRoles: bool): (k: nat)
    ensures k <= |items|
    ensures forall i :: 0 <= i < k ==> ItemOk(items[i], collectRoles)
    ensures k < |items| ==> !ItemOk(items[k], collectRoles)
  {
    if items == [] || !ItemOk(items[0], collectRoles) then 0
    else
      var k := FirstBadItem(items[1..], collectRoles);
      assert forall i :: 1 <= i < k + 1 ==> items[i] == items[1..][i - 1];
      k + 1
  }

  lemma FirstBadItemAt(items: seq<Json>, collectRoles: bool, i: nat)
    requires i <= |items| && forall j :: 0 <= j < i ==> ItemOk(items[j], collectRoles)
    requires i < |items| ==> !ItemOk(items[i], collectRoles)
    ensures FirstBadItem(items, collectRoles) == i
  {
  }

  /** The exception raised on a bad item: a non-dict record, or an unhashable role. */
  function ItemError(item: Json, i: nat): ScriptError {
    if item.JObj? && "role" in Renamed(item.fields) then UnhashableRole(Renamed(item.fields)["role"])
    else MalformedRecord(i)
  }

  predicate AllObjects(items: seq<Json>) {
    forall i :: 0 <= i < |items| ==> items[i].JObj?
  }

  /** The records after the renaming loop, in their original order. */
  function Normalised(items: seq<Json>): (ds: seq<Record>)
    requires AllObjects(items)
    ensures |ds| == |items|
    ensures forall i :: 0 <= i < |items| ==> ds[i] == Renamed(items[i].fields)
  {
    seq(|items|, i requires 0 <= i < |items| => Renamed(items[i].fields))
  }

  /** The renaming loop over records, failing at the first bad one. */
  function NormaliseItems(items: seq<Json>, collectRoles: bool): Result<seq<Record>, ScriptError> {
    var k := FirstBadItem(items, collectRoles);
    if k < |items| then Err(ItemError(items[k], k)) else Ok(Normalised(items))
  }

  /** `_load_json` on a top-level list: wrap the renamed records in a full script. */
  function ListScript(items: seq<Json>): Result<Script, ScriptError> {
    match NormaliseItems(items, true)
    case Err(e) => Err(e)
    case Ok(ds) => Ok(Script(Some(ImportMetadata("Imported from JSON")), Some(EmptyConfigs(RolesOf(ds))), Some(ds)))
  }

  /** A speaker entry the later stages can use: a dict whose `ref_audio`, if present, is a string. */
  predicate SpeakerEntryOk(j: Json) {
    j.JObj? && ("ref_audio" in j.fields ==> j.fields["ref_audio"].JStr?)
  }

  function ToSpeaker(fields: Record): Speaker
    requires "ref_audio" in fields ==> fields["ref_audio"].JStr?
  {
    Speaker(if "ref_audio" in fields then Some(fields["ref_audio"].s) else None, fields - {"ref_audio"})
  }

  /** The `speakers` section of a full-form script. */
  function SpeakersSection(fields: Record): Result<Option<Speakers>, ScriptError> {
    if "speakers" !in fields then Ok(None)
    else match fields["speakers"]
      case JObj(m) =>
        if forall k :: k in m ==> SpeakerEntryOk(m[k]) then
          Ok(Some(map k | k in m :: JStr(k) := ToSpeaker(m[k].fields)))
        else Err(MalformedSpeakers)
      case _ => Err(MalformedSpeakers)
  }

  /** `_load_json` on a top-level dict: rename inside `dialogues`, keep the rest. */
  function FullScript(fields: Record): Result<Script, ScriptError> {
    var metadata := if "metadata" in fields then Some(fields["metadata"]) else None;
    var dialogues: Result<Option<seq<Record>>, ScriptError> :=
      if "dialogues" !in fields then Ok(None)
      else match fields["dialogues"]
        case JList(items) =>
          (match NormaliseItems(items, false)
           case Ok(ds) => Ok(Some(ds))
           case Err(e) => Err(e))
        case _ => Err(MalformedScript);
    match dialogues
    case Err(e) => Err(e)
    case Ok(ds) =>
      match SpeakersSection(fields)
      case Err(e) => Err(e)
      case Ok(speakers) => Ok(Script(metadata, speakers, ds))
  }

  /** `_load_json`. */
  function JsonScript(data: Json): Result<Script, ScriptError> {
    match data
    case JList(items) => ListScript(items)
    case JObj(fields) => FullScript(fields)
    case _ => Err(MalformedScript)
  }

  /**
   * The list-form loop: rename `speaker` to `role` in each record and collect
   * the roles into a set.
   */
  method NormaliseList(items: seq<Json>) returns (r: Result<(seq<Record>, set<Json>), ScriptError>)
    ensures NormaliseItems(items, true).Err? ==> r == Err(NormaliseItems(items, true).error)
    ensures NormaliseItems(items, true).Ok? ==>
      r == Ok((NormaliseItems(items, true).value, RolesOf(NormaliseItems(items, true).value)))
  {
    var dialogues: seq<Record> := [];
    var roles: set<Json> := {};
    for i := 0 to |items|
      invariant forall j :: 0 <= j < i ==> ItemOk(items[j], true)
      invariant AllObjects(items[..i]) && dialogues == Normalised(items[..i])
      invariant roles == RolesOf(dialogues)
    {
      var item := items[i];
      if !item.JObj? {
        FirstBadItemAt(items, true, i);
        return Err(MalformedRecord(i));
      }
      var dialogue := Renamed(item.fields);
      if "role" in dialogue {
        if !Hashable(dialogue["role"]) {
          FirstBadItemAt(items, true, i);
          return Err(UnhashableRole(dialogue["role"]));
        }
      }
      RolesOfAppend(dialogues, dialogue);
      roles := roles + if "role" in dialogue then {dialogue["role"]} else {};
      dialogues := dialogues + [dialogue];
      assert items[..i + 1] == items[..i] + [item];
    }
    assert items[..|items|] == items;
    FirstBadItemAt(items, true, |items|);
    r := Ok((dialogues, roles));
  }

  /** The full-form loop: rename `speaker` to `role` in each record of `dialogues`. */
  method NormaliseDialogues(items: seq<Json>) returns (r: Result<seq<Record>, ScriptError>)
    ensures r == NormaliseItems(items, false)
  {
    var dialogues: seq<Record> := [];
    for i := 0 to |items|
      invariant forall j :: 0 <= j < i ==> ItemOk(items[j], false)
      invariant AllObjects(items[..i]) && dialogues == Normalised(items[..i])
    {
      var item := items[i];
      if !item.JObj? {
        FirstBadItemAt(items, false, i);
        return Err(MalformedRecord(i));
      }
      dialogues := dialogues + [Renamed(item.fields)];
      assert items[..i + 1] == items[..i] + [item];
    }
    assert items[..|items|] == items;
    FirstBadItemAt(items, false, |items|);
    r := Ok(dialogues);
  }

  /** `_load_json` on an already decoded value. */
  method LoadJson(data: Json) returns (r: Result<Script, ScriptError>)
    ensures r == JsonScript(data)
  {
    match data {
      case JList(items) =>
        var n := NormaliseList(items);
        match n {
          case Err(e) => r := Err(e);
          case Ok((dialogues, roles)) =>
            r := Ok(Script(Some(ImportMetadata("Imported from JSON")), Some(EmptyConfigs(roles)), Some(dialogues)));
        }
      case JObj(fields) =>
        var dialogues: Option<seq<Record>> := None;
        if "dialogues" in fields {
          if !fields["dialogues"].JList? {
            return Err(MalformedScript);
          }
          var n := NormaliseDialogues(fields["dialogues"].items);
          if n.Err? {
            return Err(n.error);
          }
          dialogues := Some(n.value);
        }
        var speakers := SpeakersSection(fields);
        if speakers.Err? {
          return Err(speakers.error);
        }
        r := Ok(Script(if "metadata" in fields then Some(fields["metadata"]) else None, speakers.value, dialogues));
      case _ =>
        r := Err(MalformedScript);
    }
  }

  /**
   * A list-form script keeps its records in order, each renamed; its
   * speakers are exactly the roles that occur, each with an empty config;
   * it fails exactly when some record is not a dict or has an unhashable role.
   */
  lemma ListScriptShape(items: seq<Json>)
    ensures ListScript(items).Ok? <==> forall i :: 0 <= i < |items| ==> ItemOk(items[i], true)
    ensures ListScript(items).Ok? ==>
      var s := ListScript(items).value;
      s.dialogues.Some? && |s.dialogues.value| == |items| &&
      (forall i :: 0 <= i < |items| ==> s.dialogues.value[i] == Renamed(items[i].fields)) &&
      s.speakers.Some? &&
      (forall r :: r in s.speakers.value <==>
        exists i :: 0 <= i < |items| && "role" in Renamed(items[i].fields) && Renamed(items[i].fields)["role"] == r) &&
      (forall r :: r in s.speakers.value ==> s.speakers.value[r] == Speaker(None, map[]))
  {
    var k := FirstBadItem(items, true);
    if k == |items| {
      var ds := Normalised(items);
      forall r ensures r in RolesOf(ds) <==>
        exists i :: 0 <= i < |items| && "role" in Renamed(items[i].fields) && Renamed(items[i].fields)["role"] == r
      {
        if r in RolesOf(ds) {
          var i :| 0 <= i < |ds| && "role" in ds[i] && ds[i]["role"] == r;
          assert "role" in Renamed(items[i].fields) && Renamed(items[i].fields)["role"] == r;
        }
      }
    }
  }

  // ---------------------------------------------------------------------------
  // _load_txt: choosing a layout by the first non-blank line
  // ---------------------------------------------------------------------------

  /** `next((l.strip() for l in lines if l.strip()), "")`. */
  function FirstNonBlank(lines: seq<string>): string {
    if lines == [] then []
    else if Strip(lines[0]) != [] then Strip(lines[0])
    else FirstNonBlank(lines[1..])
  }

  /** The first non-blank line, stripped, or the empty string when every line is blank. */
  lemma {:induction false} FirstNonBlankIs(lines: seq<string>)
    ensures FirstNonBlank(lines) == [] <==> forall i :: 0 <= i < |lines| ==> Strip(lines[i]) == []
    ensures FirstNonBlank(lines) != [] ==>
      exists i :: 0 <= i < |lines| && FirstNonBlank(lines) == Strip(lines[i]) &&
        forall j :: 0 <= j < i ==> Strip(lines[j]) == []
  {
    if lines != [] && Strip(lines[0]) == [] {
      FirstNonBlankIs(lines[1..]);
      assert forall i :: 1 <= i < |lines| ==> lines[i] == lines[1..][i - 1];
      if FirstNonBlank(lines) != [] {
        var i :| 0 <= i < |lines[1..]| && FirstNonBlank(lines[1..]) == Strip(lines[1..][i]) &&
          forall j :: 0 <= j < i ==> Strip(lines[1..][j]) == [];
        assert forall j :: 0 <= j < i + 1 ==> Strip(lines[j]) == [];
      }
    } else if lines != [] {
      assert Strip(lines[0]) != [];
    }
  }

  // ---------------------------------------------------------------------------
  // _parse_bracket_format
  // ---------------------------------------------------------------------------

  predicate NoNewline(s: string) {
    forall i :: 0 <= i < |s| ==> s[i] != '\n'
  }

  /**
   * On a stripped line `s`, the pattern `^\[(.+?)\]\s*(.+)$` matches with its
   * role group ending just before the `]` at index `j`: the role `s[1..j]` is
   * non-empty, and after the whitespace that `\s*` takes greedily a non-empty
   * text remains (`.` matches anything but a newline).
   */
  predicate ClosesAt(s: string, j: nat) {
    2 <= j < |s| && s[0] == '[' && s[j] == ']' && NoNewline(s[1..j]) &&
    TrimLeft(s[j + 1..]) != [] && NoNewline(TrimLeft(s[j + 1..]))
  }

  /** The lazy group tries the closing positions from left to right. */
  function CloseFrom(s: string, j: nat): (r: Option<nat>)
    ensures r.Some? ==> j <= r.value && ClosesAt(s, r.value) && forall k :: j <= k < r.value ==> !ClosesAt(s, k)
    ensures r.None? ==> forall k :: j <= k ==> !ClosesAt(s, k)
    decreases |s| - j
  {
    if j >= |s| then None
    else if ClosesAt(s, j) then Some(j)
    else CloseFrom(s, j + 1)
  }

  /** `pattern.match(s).groups()`, or `None` when the pattern does not match. */
  function MatchBracket(s: string): Option<(string, string)> {
    match CloseFrom(s, 2)
    case None => None
    case Some(j) => Some((s[1..j], TrimLeft(s[j + 1..])))
  }

  /**
   * A match splits the line into `[`, the role, `]`, whitespace and the text,
   * with the shortest role that lets the rest match; no match means no split
   * works.
   */
  lemma BracketMatchShape(s: string)
    ensures MatchBracket(s).Some? ==>
      var (role, text) := MatchBracket(s).value;
      role != [] && NoNewline(role) && text != [] && NoNewline(text) && !IsSpace(text[0]) &&
      (exists w :: IsBlank(w) && s == "[" + role + "]" + w + text) &&
      forall j :: 2 <= j < |role| + 1 ==> !ClosesAt(s, j)
    ensures MatchBracket(s).None? <==> forall j :: !ClosesAt(s, j)
  {
    match CloseFrom(s, 2) {
      case None =>
      case Some(j) =>
        var rest := s[j + 1..];
        TrimLeftShape(rest);
        var w := rest[..|rest| - |TrimLeft(rest)|];
        assert rest == w + TrimLeft(rest);
        assert s == "[" + s[1..j] + "]" + w + TrimLeft(rest);
    }
  }

  /** What one line contributes in bracket format: a dialogue, or nothing. */
  function BracketLine(line: string): (r: Option<Record>)
    ensures r.Some? ==>
      r.value.Keys == {"role", "text"} && r.value["role"].JStr? && r.value["role"].s != [] && r.value["text"].JStr?
  {
    var s := Strip(line);
    if s == [] then None
    else match MatchBracket(s)
      case None => None
      case Some((role, text)) => Some(map["role" := JStr(role), "text" := JStr(text)])
  }

  /** The dialogues of the bracket loop, in line order. */
  function BracketDialogues(lines: seq<string>): seq<Record> {
    if lines == [] then []
    else
      var n := |lines| - 1;
      BracketDialogues(lines[..n]) + match BracketLine(lines[n]) case Some(d) => [d] case None => []
  }

  /** `_parse_bracket_format`. */
  function BracketScript(lines: seq<string>): Script {
    var ds := BracketDialogues(lines);
    Script(Some(ImportMetadata("Imported from TXT")), Some(EmptyConfigs(RolesOf(ds))), Some(ds))
  }

  method ParseBracket(lines: seq<string>) returns (s: Script)
    ensures s == BracketScript(lines)
  {
    var dialogues: seq<Record> := [];
    var roles: set<Json> := {};
    for i := 0 to |lines|
      invariant dialogues == BracketDialogues(lines[..i])
      invariant roles == RolesOf(dialogues)
    {
      assert lines[..i + 1][..i] == lines[..i];
      var line := Strip(lines[i]);
      if line == [] {
        continue;
      }
      var m := MatchBracket(line);
      if m.Some? {
        var (role, text) := m.value;
        var d := map["role" := JStr(role), "text" := JStr(text)];
        RolesOfAppend(dialogues, d);
        roles := roles + {JStr(role)};
        dialogues := dialogues + [d];
      }
    }
    assert lines[..|lines|] == lines;
    s := Script(Some(ImportMetadata("Imported from TXT")), Some(EmptyConfigs(roles)), Some(dialogues));
  }

  /** The indices of the lines that produce a dialogue, in increasing order. */
  function MatchedLines(lines: seq<string>): seq<nat> {
    if lines == [] then []
    else
      var n := |lines| - 1;
      MatchedLines(lines[..n]) + if BracketLine(lines[n]).Some? then [n] else []
  }

  /**
   * Each bracket dialogue comes from exactly one matching line, in line
   * order, and every matching line produces one; blank and non-matching
   * lines produce nothing.
   */
  lemma {:induction false} BracketOrigins(lines: seq<string>)
    ensures var ds := BracketDialogues(lines); var idx := MatchedLines(lines);
      |idx| == |ds| &&
      (forall k :: 0 <= k < |idx| ==> idx[k] < |lines| && BracketLine(lines[idx[k]]) == Some(ds[k])) &&
      (forall k, l :: 0 <= k < l < |idx| ==> idx[k] < idx[l]) &&
      (forall i :: 0 <= i < |lines| && BracketLine(lines[i]).Some? ==> i in idx)
  {
    if lines != [] {
      var n := |lines| - 1;
      var pre := lines[..n];
      BracketOrigins(pre);
      assert forall i :: 0 <= i < n ==> pre[i] == lines[i];
      var ds0, idx0 := BracketDialogues(pre), MatchedLines(pre);
      var ds, idx := BracketDialogues(lines), MatchedLines(lines);
      match BracketLine(lines[n]) {
        case None =>
          assert ds == ds0 + [] && idx == idx0 + [];
        case Some(d) =>
          assert ds == ds0 + [d] && idx == idx0 + [n];
          assert forall k :: 0 <= k < |idx0| ==> idx[k] == idx0[k] && ds[k] == ds0[k];
          assert forall k :: 0 <= k < |idx0| ==> idx0[k] < n;
      }
    }
  }

  /** A bracket line that produces a dialogue with role `r`. */
  predicate GivesRole(line: string, r: Json) {
    BracketLine(line).Some? && BracketLine(line).value["role"] == r
  }

  /** The speakers of a bracket script are exactly the roles written on matching lines. */
  lemma BracketSpeakers(lines: seq<string>)
    ensures forall r :: r in Roles(BracketScript(lines)) <==> exists i :: 0 <= i < |lines| && GivesRole(lines[i], r)
  {
    BracketOrigins(lines);
    var ds := BracketDialogues(lines);
    var idx := MatchedLines(lines);
    forall r | r in RolesOf(ds) ensures exists i :: 0 <= i < |lines| && GivesRole(lines[i], r) {
      var k :| 0 <= k < |ds| && "role" in ds[k] && ds[k]["role"] == r;
      assert GivesRole(lines[idx[k]], r);
    }
    forall r, i | 0 <= i < |lines| && GivesRole(lines[i], r) ensures r in RolesOf(ds) {
      var k :| 0 <= k < |idx| && idx[k] == i;
      assert "role" in ds[k] && ds[k]["role"] == r;
    }
  }

  // ---------------------------------------------------------------------------
  // _parse_json_line_format
  // ---------------------------------------------------------------------------

  /** `json.loads` of one stripped line: the decoded dict, or `None` where it raises. */
  type Decoder = string -> Option<Record>

  /** The dialogue stored for a config and the stripped line after it. */
  function ConfigDialogue(config: Record, text: string): Record {
    map["role" := Get(config, "name", JStr("Unknown")), "text" := JStr(text), "config" := JObj(config)]
  }

  /** A non-blank line starting with `{` that decodes to `config`. */
  predicate ConfigLine(line: string, decode: Decoder, config: Record) {
    Strip(line) != [] && Strip(line)[0] == '{' && decode(Strip(line)) == Some(config)
  }

  /**
   * The dialogues the loop appends, reading from the first line: a config
   * line consumes the line after it, which yields a dialogue when it is not
   * blank; any other line is skipped on its own.
   */
  function ConfigDialogues(lines: seq<string>, decode: Decoder): seq<Record>
    decreases |lines|
  {
    if lines == [] then []
    else
      var line := Strip(lines[0]);
      if line == [] || line[0] != '{' || decode(line).None? then ConfigDialogues(lines[1..], decode)
      else if |lines| == 1 then []
      else
        var text := Strip(lines[1]);
        (if text != [] then [ConfigDialogue(decode(line).value, text)] else []) + ConfigDialogues(lines[2..], decode)
  }

  /** The index of the first dialogue whose role cannot go into a set, or the number of dialogues. */
  function FirstBadRole(ds: seq<Record>): (k: nat)
    ensures k <= |ds|
    ensures forall i :: 0 <= i < k ==> RoleHashable(ds[i])
    ensures k < |ds| ==> !RoleHashable(ds[k])
  {
    if ds == [] || !RoleHashable(ds[0]) then 0
    else
      var k := FirstBadRole(ds[1..]);
      assert forall i :: 1 <= i < k + 1 ==> ds[i] == ds[1..][i - 1];
      k + 1
  }

  /** `_parse_json_line_format`: `roles.add(role)` raises on the first unhashable role. */
  function JsonLineScript(lines: seq<string>, decode: Decoder): Result<Script, ScriptError> {
    var ds := ConfigDialogues(lines, decode);
    var k := FirstBadRole(ds);
    if k < |ds| then Err(UnhashableRole(ds[k]["role"]))
    else Ok(Script(Some(ImportMetadata("Imported from TXT")), Some(EmptyConfigs(RolesOf(ds))), Some(ds)))
  }

  /** The lines from index `i` on; empty once `i` has run past the end. */
  function From(lines: seq<string>, i: nat): seq<string> {
    if i <= |lines| then lines[i..] else []
  }

  /** One turn of the loop at line `i`, read off the reference definition. */
  lemma ConfigStep(lines: seq<string>, i: nat, decode: Decoder)
    requires i < |lines|
    ensures var line := Strip(lines[i]);
      ConfigDialogues(From(lines, i), decode) ==
        if line == [] || line[0] != '{' || decode(line).None? then ConfigDialogues(From(lines, i + 1), decode)
        else if i + 1 == |lines| then []
        else
          (if Strip(lines[i + 1]) != [] then [ConfigDialogue(decode(line).value, Strip(lines[i + 1]))] else []) +
          ConfigDialogues(From(lines, i + 2), decode)
  {
    var rest := From(lines, i);
    assert rest[0] == lines[i] && rest[1..] == From(lines, i + 1);
    if i + 1 < |lines| {
      assert rest[1] == lines[i + 1] && rest[2..] == From(lines, i + 2);
    }
  }

  lemma FirstBadRoleAt(pre: seq<Record>, d: Record, post: seq<Record>)
    requires forall k :: 0 <= k < |pre| ==> RoleHashable(pre[k])
    requires !RoleHashable(d)
    ensures FirstBadRole(pre + [d] + post) == |pre|
    ensures (pre + [d] + post)[|pre|] == d
  {
    var all := pre + [d] + post;
    assert all[|pre|] == d;
    assert forall k :: 0 <= k < |pre| ==> all[k] == pre[k];
  }

  /**
   * One turn of the loop at line `i`: the dialogue it reads, if any, and the
   * index the next turn starts from. A config line always consumes the line
   * after it.
   */
  method ReadEntry(lines: seq<string>, i: nat, decode: Decoder) returns (d: Option<Record>, next: nat)
    requires i < |lines|
    ensures i < next <= |lines| + 1
    ensures ConfigDialogues(From(lines, i), decode) ==
      (if d.Some? then [d.value] else []) + ConfigDialogues(From(lines, next), decode)
    ensures d.Some? ==> "role" in d.value
  {
    ConfigStep(lines, i, decode);
    ghost var here := ConfigDialogues(From(lines, i), decode);
    var line := Strip(lines[i]);
    if line == [] || line[0] != '{' || decode(line).None? {
      assert here == [] + ConfigDialogues(From(lines, i + 1), decode);
      return None, i + 1;
    }
    var config := decode(line).value;
    if i + 1 < |lines| {
      var text := Strip(lines[i + 1]);
      if text != [] {
        assert here == [ConfigDialogue(config, text)] + ConfigDialogues(From(lines, i + 2), decode);
        return Some(ConfigDialogue(config, text)), i + 2;
      }
      assert here == [] + ConfigDialogues(From(lines, i + 2), decode);
      return None, i + 2;
    }
    assert From(lines, i + 2) == [];
    assert here == [] + ConfigDialogues([], decode);
    return None, i + 2;
  }

  method ParseJsonLines(lines: seq<string>, decode: Decoder) returns (r: Result<Script, ScriptError>)
    ensures r == JsonLineScript(lines, decode)
  {
    ghost var all := ConfigDialogues(lines, decode);
    var dialogues: seq<Record> := [];
    var roles: set<Json> := {};
    var i := 0;
    assert From(lines, 0) == lines;
    while i < |lines|
      invariant 0 <= i <= |lines| + 1
      invariant dialogues + ConfigDialogues(From(lines, i), decode) == all
      invariant forall k :: 0 <= k < |dialogues| ==> RoleHashable(dialogues[k])
      invariant roles == RolesOf(dialogues)
      decreases |lines| + 1 - i
    {
      var d, next := ReadEntry(lines, i, decode);
      ghost var later := ConfigDialogues(From(lines, next), decode);
      if d.None? {
        assert ConfigDialogues(From(lines, i), decode) == later;
      }
      if d.Some? {
        var role := d.value["role"];
        assert all == dialogues + [d.value] + later;
        if !Hashable(role) {
          FirstBadRoleAt(dialogues, d.value, later);
          return Err(UnhashableRole(role));
        }
        RolesOfAppend(dialogues, d.value);
        roles := roles + {role};
        dialogues := dialogues + [d.value];
      }
      i := next;
    }
    assert From(lines, i) == [];
    assert dialogues == all;
    r := Ok(Script(Some(ImportMetadata("Imported from TXT")), Some(EmptyConfigs(roles)), Some(dialogues)));
  }

  /** `d` is the dialogue of the config line `i` of `lines` and the non-blank line after it. */
  ghost predicate PairedAt(lines: seq<string>, decode: Decoder, i: nat, d: Record) {
    i + 1 < |lines| && Strip(lines[i + 1]) != [] &&
    exists c :: ConfigLine(lines[i], decode, c) && d == ConfigDialogue(c, Strip(lines[i + 1]))
  }

  ghost predicate FromConfigPair(lines: seq<string>, decode: Decoder, d: Record) {
    exists i: nat :: PairedAt(lines, decode, i, d)
  }

  lemma PairedShift(lines: seq<string>, m: nat, decode: Decoder, d: Record)
    requires m <= |lines| && FromConfigPair(lines[m..], decode, d)
    ensures FromConfigPair(lines, decode, d)
  {
    var i: nat :| PairedAt(lines[m..], decode, i, d);
    assert lines[m..][i] == lines[i + m] && lines[m..][i + 1] == lines[i + m + 1];
    assert PairedAt(lines, decode, i + m, d);
  }

  /**
   * Every JSON-line dialogue comes from a config line and the non-blank
   * line right after it: its role is the config's `name` (or `"Unknown"`),
   * its text that next line stripped, and the config is kept with it. Each
   * dialogue uses two lines, so there are at most half as many dialogues as
   * lines.
   */
  lemma {:induction false} ConfigDialogueOrigins(lines: seq<string>, decode: Decoder)
    ensures var ds := ConfigDialogues(lines, decode);
      2 * |ds| <= |lines| && forall k :: 0 <= k < |ds| ==> FromConfigPair(lines, decode, ds[k])
    decreases |lines|
  {
    if lines != [] {
      ConfigHead(lines, decode);
      var m := HeadSkip(lines, decode);
      ConfigDialogueOrigins(lines[m..], decode);
      PairsCombine(lines, decode, m, HeadDialogues(lines, decode), ConfigDialogues(lines[m..], decode));
    }
  }

  lemma PairsCombine(lines: seq<string>, decode: Decoder, m: nat, head: seq<Record>, rest: seq<Record>)
    requires m <= |lines|
    requires forall k :: 0 <= k < |head| ==> PairedAt(lines, decode, 0, head[k])
    requires forall k :: 0 <= k < |rest| ==> FromConfigPair(lines[m..], decode, rest[k])
    ensures forall k :: 0 <= k < |head + rest| ==> FromConfigPair(lines, decode, (head + rest)[k])
  {
    forall k | 0 <= k < |head + rest| ensures FromConfigPair(lines, decode, (head + rest)[k]) {
      if k < |head| {
        assert PairedAt(lines, decode, 0, (head + rest)[k]);
      } else {
        assert (head + rest)[k] == rest[k - |head|];
        PairedShift(lines, m, decode, rest[k - |head|]);
      }
    }
  }

  /** How many lines the first turn of the loop consumes. */
  function HeadSkip(lines: seq<string>, decode: Decoder): nat
    requires lines != []
  {
    var line := Strip(lines[0]);
    if line == [] || line[0] != '{' || decode(line).None? || |lines| == 1 then 1 else 2
  }

  /** The dialogue the first turn of the loop reads, if any. */
  function HeadDialogues(lines: seq<string>, decode: Decoder): seq<Record>
    requires lines != []
  {
    var line := Strip(lines[0]);
    if line == [] || line[0] != '{' || decode(line).None? || |lines| == 1 || Strip(lines[1]) == [] then []
    else [ConfigDialogue(decode(line).value, Strip(lines[1]))]
  }

  lemma ConfigHead(lines: seq<string>, decode: Decoder)
    requires lines != []
    ensures 1 <= HeadSkip(lines, decode) <= |lines|
    ensures 2 * |HeadDialogues(lines, decode)| <= HeadSkip(lines, decode)
    ensures ConfigDialogues(lines, decode) ==
      HeadDialogues(lines, decode) + ConfigDialogues(lines[HeadSkip(lines, decode)..], decode)
    ensures forall k :: 0 <= k < |HeadDialogues(lines, decode)| ==> PairedAt(lines, decode, 0, HeadDialogues(lines, decode)[k])
  {
    var line := Strip(lines[0]);
    if !(line == [] || line[0] != '{' || decode(line).None?) {
      assert ConfigLine(lines[0], decode, decode(line).value);
    }
  }

  /** A config line followed by a non-blank line yields exactly one dialogue, and the rest is read afresh. */
  lemma ConfigPair(line: string, text: string, rest: seq<string>, decode: Decoder, config: Record)
    requires ConfigLine(line, decode, config) && Strip(text) != []
    ensures ConfigDialogues([line, text] + rest, decode) ==
      [ConfigDialogue(config, Strip(text))] + ConfigDialogues(rest, decode)
  {
    assert ([line, text] + rest)[2..] == rest;
  }

  /** A config line followed by a blank line or by nothing yields nothing, and the blank line is consumed. */
  lemma ConfigWithoutText(line: string, rest: seq<string>, decode: Decoder, config: Record)
    requires ConfigLine(line, decode, config)
    ensures ConfigDialogues([line], decode) == []
    ensures rest != [] && Strip(rest[0]) == [] ==>
      ConfigDialogues([line] + rest, decode) == ConfigDialogues(rest[1..], decode)
  {
    if rest != [] {
      assert ([line] + rest)[2..] == rest[1..];
    }
  }

  /** A line that is blank, does not start with `{`, or does not decode yields nothing on its own. */
  lemma NonConfigSkipped(line: string, rest: seq<string>, decode: Decoder)
    requires forall c :: !ConfigLine(line, decode, c)
    ensures ConfigDialogues([line] + rest, decode) == ConfigDialogues(rest, decode)
  {
    assert ([line] + rest)[1..] == rest;
    var s := Strip(line);
    if s != [] && s[0] == '{' && decode(s).Some? {
      assert ConfigLine(line, decode, decode(s).value);
    }
  }

  // ---------------------------------------------------------------------------
  // _load_txt and _load_script
  // ---------------------------------------------------------------------------

  /** `_load_txt` on the file's lines. */
  function TxtScript(lines: seq<string>, decode: Decoder): Result<Script, ScriptError> {
    var first := FirstNonBlank(lines);
    if first != [] && first[0] == '[' then Ok(BracketScript(lines))
    else if first != [] && first[0] == '{' then JsonLineScript(lines, decode)
    else Err(UnknownTxtFormat)
  }

  method LoadTxt(lines: seq<string>, decode: Decoder) returns (r: Result<Script, ScriptError>)
    ensures r == TxtScript(lines, decode)
  {
    var first := FirstNonBlank(lines);
    if first != [] && first[0] == '[' {
      var s := ParseBracket(lines);
      r := Ok(s);
    } else if first != [] && first[0] == '{' {
      r := ParseJsonLines(lines, decode);
    } else {
      r := Err(UnknownTxtFormat);
    }
  }

  /**
   * The layout is chosen by the first non-blank line alone: `[` selects the
   * bracket layout, `{` the JSON-line layout, and anything else (an
   * all-blank file included) is rejected.
   */
  lemma TxtLayout(lines: seq<string>, decode: Decoder)
    ensures (exists i :: 0 <= i < |lines| && Strip(lines[i]) != [] && Strip(lines[i])[0] == '[' &&
              forall j :: 0 <= j < i ==> Strip(lines[j]) == []) ==>
      TxtScript(lines, decode) == Ok(BracketScript(lines))
    ensures (exists i :: 0 <= i < |lines| && Strip(lines[i]) != [] && Strip(lines[i])[0] == '{' &&
              forall j :: 0 <= j < i ==> Strip(lines[j]) == []) ==>
      TxtScript(lines, decode) == JsonLineScript(lines, decode)
    ensures (exists i :: 0 <= i < |lines| && Strip(lines[i]) != [] && Strip(lines[i])[0] != '[' &&
              Strip(lines[i])[0] != '{' && forall j :: 0 <= j < i ==> Strip(lines[j]) == []) ==>
      TxtScript(lines, decode) == Err(UnknownTxtFormat)
    ensures (forall i :: 0 <= i < |lines| ==> Strip(lines[i]) == []) ==>
      TxtScript(lines, decode) == Err(UnknownTxtFormat)
  {
    if i :| 0 <= i < |lines| && Strip(lines[i]) != [] && forall j :: 0 <= j < i ==> Strip(lines[j]) == [] {
      FirstNonBlankAt(lines, i);
    } else {
      FirstNonBlankIs(lines);
    }
  }

  lemma {:induction false} FirstNonBlankAt(lines: seq<string>, i: nat)
    requires i < |lines| && Strip(lines[i]) != [] && forall j :: 0 <= j < i ==> Strip(lines[j]) == []
    ensures FirstNonBlank(lines) == Strip(lines[i])
  {
    if i > 0 {
      assert Strip(lines[0]) == [];
      assert forall j :: 0 <= j < i - 1 ==> lines[1..][j] == lines[j + 1];
      FirstNonBlankAt(lines[1..], i - 1);
    }
  }

  /** `_load_script` on the file's contents. */
  function LoadedScript(path: string, file: FileText, decode: Decoder): Result<Script, ScriptError> {
    match ScriptFormat(path)
    case Err(e) => Err(e)
    case Ok(JsonFormat) => if file.json.None? then Err(InvalidJson) else JsonScript(file.json.value)
    case Ok(TxtFormat) => TxtScript(file.lines, decode)
  }

  method LoadScript(path: string, file: FileText, decode: Decoder) returns (r: Result<Script, ScriptError>)
    ensures r == LoadedScript(path, file, decode)
  {
    var format := ScriptFormat(path);
    match format {
      case Err(e) => r := Err(e);
      case Ok(JsonFormat) =>
        if file.json.None? {
          return Err(InvalidJson);
        }
        r := LoadJson(file.json.value);
      case Ok(TxtFormat) =>
        r := LoadTxt(file.lines, decode);
    }
  }

  // ---------------------------------------------------------------------------
  // get_speakers: resolving reference-audio paths
  // ---------------------------------------------------------------------------

  /** The `os.path` functions the parser calls. */
  datatype PathOps = PathOps(
    isAbs: string -> bool,
    abspath: string -> string,
    dirname: string -> string,
    join: (string, string) -> string,
    normpath: string -> string,
    pathExists: string -> bool)

  /** `os.path.dirname(os.path.abspath(script_path))`. */
  function ScriptDir(paths: PathOps, scriptPath: string): string {
    paths.dirname(paths.abspath(scriptPath))
  }

  /** A non-empty relative path is joined to `dir` and normalised; others are kept. */
  function ResolvePath(paths: PathOps, dir: string, ref: string): string {
    if ref != [] && !paths.isAbs(ref) then paths.normpath(paths.join(dir, ref)) else ref
  }

  function ResolveSpeaker(paths: PathOps, dir: string, sp: Speaker): Speaker {
    match sp.refAudio
    case None => sp
    case Some(ref) => sp.(refAudio := Some(ResolvePath(paths, dir, ref)))
  }

  /** The speakers table after the `get_speakers` loop. */
  function Resolved(paths: PathOps, dir: string, sps: Speakers): Speakers {
    map k | k in sps :: ResolveSpeaker(paths, dir, sps[k])
  }

  /** `normpath(join(dir, p))` is absolute for every `p`: `dir` is absolute, as `abspath` makes it. */
  ghost predicate ResolvesAbsolute(paths: PathOps, dir: string) {
    forall ref :: paths.isAbs(paths.normpath(paths.join(dir, ref)))
  }

  /**
   * Resolution keeps every speaker and every field but `ref_audio`; a
   * non-empty relative `ref_audio` becomes the normalised join with the
   * script's directory, and an absolute, empty or missing one is left alone.
   */
  lemma ResolvedEntries(paths: PathOps, dir: string, sps: Speakers)
    ensures var r := Resolved(paths, dir, sps);
      r.Keys == sps.Keys &&
      forall k :: k in sps ==>
        r[k].rest == sps[k].rest &&
        (sps[k].refAudio.None? ==> r[k].refAudio.None?) &&
        (sps[k].refAudio.Some? ==>
          var ref := sps[k].refAudio.value;
          r[k].refAudio == Some(if ref != [] && !paths.isAbs(ref) then paths.normpath(paths.join(dir, ref)) else ref))
  {
  }

  /** Once resolved paths are absolute, resolving again changes nothing. */
  lemma ResolvedIdempotent(paths: PathOps, dir: string, sps: Speakers)
    requires ResolvesAbsolute(paths, dir)
    ensures Resolved(paths, dir, Resolved(paths, dir, sps)) == Resolved(paths, dir, sps)
  {
    var once := Resolved(paths, dir, sps);
    forall k | k in once ensures ResolveSpeaker(paths, dir, once[k]) == once[k] {
      if sps[k].refAudio.Some? {
        var ref := sps[k].refAudio.value;
        if ref != [] && !paths.isAbs(ref) {
          assert paths.isAbs(paths.normpath(paths.join(dir, ref)));
        }
      }
    }
  }

  // ---------------------------------------------------------------------------
  // validate
  // ---------------------------------------------------------------------------

  /** Why a speaker fails the reference-audio check, if it does. */
  function SpeakerIssue(name: Json, sp: Speaker, paths: PathOps): Option<ScriptError> {
    match sp.refAudio
    case None => Some(SpeakerMissingRefAudio(name))
    case Some(p) => if paths.pathExists(p) then None else Some(RefAudioNotFound(name, p))
  }

  /** `line.get("role") or line.get("speaker")`. */
  function LineRole(line: Record): Json {
    var role := Get(line, "role", JNull);
    if Truthy(role) then role else Get(line, "speaker", JNull)
  }

  /** A dialogue line that passes: a truthy, hashable, known role and a `text` key. */
  predicate LineOk(line: Record, speakers: Speakers) {
    var role := LineRole(line);
    Truthy(role) && Hashable(role) && role in speakers && "text" in line
  }

  /** The exception for the failing line at index `i`, in the order the checks run. */
  function LineError(line: Record, i: nat, speakers: Speakers): ScriptError {
    var role := LineRole(line);
    if !Truthy(role) then LineMissingRole(i)
    else if !Hashable(role) then UnhashableRole(role)
    else if role !in speakers then UnknownRole(i, role)
    else LineMissingText(i)
  }

  /** The index of the first failing line, or the number of lines. */
  function FirstBadLine(ds: seq<Record>, speakers: Speakers): (k: nat)
    ensures k <= |ds|
    ensures forall i :: 0 <= i < k ==> LineOk(ds[i], speakers)
    ensures k < |ds| ==> !LineOk(ds[k], speakers)
  {
    if ds == [] || !LineOk(ds[0], speakers) then 0
    else
      var k := FirstBadLine(ds[1..], speakers);
      assert forall i :: 1 <= i < k + 1 ==> ds[i] == ds[1..][i - 1];
      k + 1
  }

  /** The dialogue loop of `validate`. */
  function DialoguesOutcome(ds: seq<Record>, speakers: Speakers): Outcome<ScriptError> {
    var k := FirstBadLine(ds, speakers);
    if k < |ds| then Fail(LineError(ds[k], k, speakers)) else Pass
  }

  lemma FirstBadLineAt(ds: seq<Record>, speakers: Speakers, i: nat)
    requires i <= |ds| && forall j :: 0 <= j < i ==> LineOk(ds[j], speakers)
    requires i < |ds| ==> !LineOk(ds[i], speakers)
    ensures FirstBadLine(ds, speakers) == i
  {
  }

  /**
   * The dialogue check passes exactly when every line passes, and otherwise
   * reports the first failing line with the cause of the first check it fails.
   */
  lemma DialoguesOutcomeSpec(ds: seq<Record>, speakers: Speakers)
    ensures DialoguesOutcome(ds, speakers) == Pass <==> forall i :: 0 <= i < |ds| ==> LineOk(ds[i], speakers)
    ensures DialoguesOutcome(ds, speakers).Fail? ==>
      exists i :: 0 <= i < |ds| && !LineOk(ds[i], speakers) &&
        (forall j :: 0 <= j < i ==> LineOk(ds[j], speakers)) &&
        DialoguesOutcome(ds, speakers).error == LineError(ds[i], i, speakers)
  {
  }

  /** The speaker loop of `validate`; dict order is not modelled, so any failing speaker may be the one reported. */
  method CheckSpeakers(speakers: Speakers, paths: PathOps) returns (r: Outcome<ScriptError>)
    ensures r.Pass? <==> forall k :: k in speakers ==> SpeakerIssue(k, speakers[k], paths).None?
    ensures r.Fail? ==> exists k :: k in speakers && SpeakerIssue(k, speakers[k], paths) == Some(r.error)
  {
    var todo := speakers.Keys;
    while todo != {}
      invariant todo <= speakers.Keys
      invariant forall k :: k in speakers && k !in todo ==> SpeakerIssue(k, speakers[k], paths).None?
      decreases todo
    {
      var name :| name in todo;
      var issue := SpeakerIssue(name, speakers[name], paths);
      if issue.Some? {
        return Fail(issue.value);
      }
      todo := todo - {name};
    }
    r := Pass;
  }

  /** The dialogue loop of `validate`, stopping at the first failing line. */
  method CheckDialogues(ds: seq<Record>, speakers: Speakers) returns (r: Outcome<ScriptError>)
    ensures r == DialoguesOutcome(ds, speakers)
  {
    for i := 0 to |ds|
      invariant forall j :: 0 <= j < i ==> LineOk(ds[j], speakers)
    {
      var line := ds[i];
      var role := LineRole(line);
      if !Truthy(role) || !Hashable(role) || role !in speakers || "text" !in line {
        FirstBadLineAt(ds, speakers, i);
        return Fail(LineError(line, i, speakers));
      }
    }
    FirstBadLineAt(ds, speakers, |ds|);
    r := Pass;
  }

  /**
   * Records that carry their own role, a text and no `speaker`, checked
   * against a speakers table holding exactly their roles, pass exactly when
   * every role is truthy.
   */
  lemma OwnRolesCheck(ds: seq<Record>, speakers: Speakers)
    requires speakers.Keys == RolesOf(ds)
    requires forall i :: 0 <= i < |ds| ==>
      "role" in ds[i] && "speaker" !in ds[i] && "text" in ds[i] && Hashable(ds[i]["role"])
    ensures DialoguesOutcome(ds, speakers) == Pass <==> forall i :: 0 <= i < |ds| ==> Truthy(ds[i]["role"])
  {
    DialoguesOutcomeSpec(ds, speakers);
    forall i | 0 <= i < |ds| ensures LineOk(ds[i], speakers) <==> Truthy(ds[i]["role"]) {
      assert ds[i]["role"] in RolesOf(ds);
    }
  }

  /** A bracket import passes the dialogue check against its own (resolved) speakers. */
  lemma BracketScriptChecks(lines: seq<string>, paths: PathOps, dir: string)
    ensures var s := BracketScript(lines);
      DialoguesOutcome(s.dialogues.value, Resolved(paths, dir, s.speakers.value)) == Pass
  {
    var ds := BracketDialogues(lines);
    BracketOrigins(lines);
    var idx := MatchedLines(lines);
    forall i | 0 <= i < |ds|
      ensures "role" in ds[i] && "speaker" !in ds[i] && "text" in ds[i] && Hashable(ds[i]["role"]) && Truthy(ds[i]["role"])
    {
      assert BracketLine(lines[idx[i]]) == Some(ds[i]);
    }
    OwnRolesCheck(ds, Resolved(paths, dir, EmptyConfigs(RolesOf(ds))));
  }

  /** A JSON-line import passes the dialogue check exactly when every config's role is truthy. */
  lemma JsonLineScriptChecks(lines: seq<string>, decode: Decoder, paths: PathOps, dir: string)
    requires JsonLineScript(lines, decode).Ok?
    ensures var s := JsonLineScript(lines, decode).value;
      DialoguesOutcome(s.dialogues.value, Resolved(paths, dir, s.speakers.value)) == Pass <==>
        forall i :: 0 <= i < |s.dialogues.value| ==> Truthy(Get(s.dialogues.value[i], "role", JNull))
  {
    var ds := ConfigDialogues(lines, decode);
    ConfigDialogueOrigins(lines, decode);
    forall i | 0 <= i < |ds| ensures "role" in ds[i] && "speaker" !in ds[i] && "text" in ds[i] {
      var j: nat :| PairedAt(lines, decode, j, ds[i]);
    }
    OwnRolesCheck(ds, Resolved(paths, dir, EmptyConfigs(RolesOf(ds))));
  }

  // ---------------------------------------------------------------------------
  // The parser object
  // ---------------------------------------------------------------------------

  /** `self.data.get("speakers", {})`. */
  function SpeakersOr(s: Script): Speakers {
    if s.speakers.Some? then s.speakers.value else map[]
  }

  /** The entry `update_speaker_config` writes. */
  function SpeakerConfig(refAudio: string, refText: string, language: string): Speaker {
    Speaker(Some(refAudio), map["ref_text" := JStr(refText), "language" := JStr(language)])
  }

  class DialogueParser {
    const scriptPath: string
    var data: Script

    /** `__init__` once `_load_script` has returned `data`. */
    constructor (scriptPath: string, data: Script)
      ensures this.scriptPath == scriptPath && this.data == data
    {
      this.scriptPath := scriptPath;
      this.data := data;
    }

    /** `DialogueParser(script_path)`: load the file, or raise what loading raises. */
    static method Open(scriptPath: string, file: FileText, decode: Decoder) returns (r: Result<DialogueParser, ScriptError>)
      ensures LoadedScript(scriptPath, file, decode).Err? ==> r == Err(LoadedScript(scriptPath, file, decode).error)
      ensures LoadedScript(scriptPath, file, decode).Ok? ==>
        r.Ok? && fresh(r.value) && r.value.scriptPath == scriptPath &&
        r.value.data == LoadedScript(scriptPath, file, decode).value
    {
      var loaded := LoadScript(scriptPath, file, decode);
      match loaded {
        case Err(e) => r := Err(e);
        case Ok(data) =>
          var parser := new DialogueParser(scriptPath, data);
          r := Ok(parser);
      }
    }

    /**
     * `get_speakers`: resolve relative `ref_audio` paths in place and return
     * the table; a missing section yields an empty table and stays missing.
     */
    method GetSpeakers(paths: PathOps) returns (speakers: Speakers)
      modifies this
      ensures speakers == Resolved(paths, ScriptDir(paths, scriptPath), SpeakersOr(old(data)))
      ensures data == if old(data).speakers.Some? then old(data).(speakers := Some(speakers)) else old(data)
    {
      var dir := ScriptDir(paths, scriptPath);
      speakers := SpeakersOr(data);
      ghost var original := speakers;
      var todo := speakers.Keys;
      while todo != {}
        invariant todo <= original.Keys && speakers.Keys == original.Keys
        invariant forall k :: k in original && k !in todo ==> speakers[k] == ResolveSpeaker(paths, dir, original[k])
        invariant forall k :: k in todo ==> speakers[k] == original[k]
        decreases todo
      {
        var name :| name in todo;
        var info := speakers[name];
        if info.refAudio.Some? && info.refAudio.value != [] && !paths.isAbs(info.refAudio.value) {
          speakers := speakers[name := info.(refAudio := Some(paths.normpath(paths.join(dir, info.refAudio.value))))];
        }
        todo := todo - {name};
      }
      if data.speakers.Some? {
        data := data.(speakers := Some(speakers));
      }
    }

    /** `get_roles`: the keys of the speakers section. */
    function GetRoles(): (roles: set<Json>)
      reads this
      ensures forall r :: r in roles <==> data.speakers.Some? && r in data.speakers.value
    {
      Roles(data)
    }

    /**
     * `validate`: the two sections must exist; unless the audio check is
     * skipped every speaker needs an existing reference audio; then the
     * first failing dialogue line is reported. Speaker paths are resolved
     * in place on the way, as `get_speakers` does.
     */
    method Validate(skipAudioCheck: bool, paths: PathOps) returns (r: Outcome<ScriptError>)
      modifies this
      ensures old(data).speakers.None? ==> r == Fail(MissingSpeakersSection) && data == old(data)
      ensures old(data).speakers.Some? && old(data).dialogues.None? ==>
        r == Fail(MissingDialoguesSection) && data == old(data)
      ensures old(data).speakers.Some? && old(data).dialogues.Some? ==>
        var sp := Resolved(paths, ScriptDir(paths, scriptPath), old(data).speakers.value);
        data == old(data).(speakers := Some(sp)) &&
        if !skipAudioCheck && exists k :: k in sp && SpeakerIssue(k, sp[k], paths).Some? then
          r.Fail? && exists k :: k in sp && SpeakerIssue(k, sp[k], paths) == Some(r.error)
        else
          r == DialoguesOutcome(old(data).dialogues.value, sp)
    {
      if data.speakers.None? {
        return Fail(MissingSpeakersSection);
      }
      if data.dialogues.None? {
        return Fail(MissingDialoguesSection);
      }
      var speakers := GetSpeakers(paths);
      if !skipAudioCheck {
        var audio := CheckSpeakers(speakers, paths);
        if audio.Fail? {
          return audio;
        }
      }
      r := CheckDialogues(data.dialogues.value, speakers);
    }

    /**
     * `update_speaker_config`: create the section if needed and replace this
     * role's entry by exactly the three given fields. The role is any key
     * `get_roles` can return (a string, a number, a boolean or null); an
     * unhashable one would make the dict assignment raise.
     */
    method UpdateSpeakerConfig(role: Json, refAudio: string, refText: string := "", language: string := "Chinese")
      requires Hashable(role)
      modifies this
      ensures data == old(data).(speakers := Some(SpeakersOr(old(data))[role := SpeakerConfig(refAudio, refText, language)]))
      ensures Roles(data) == Roles(old(data)) + {role}
    {
      var speakers := SpeakersOr(data);
      data := data.(speakers := Some(speakers[role := SpeakerConfig(refAudio, refText, language)]));
    }
  }

  /**
   * Once every role of a script has been given an existing reference audio
   * with `update_speaker_config`, the audio check passes for it.
   */
  lemma ConfiguredSpeakersPass(sps: Speakers, paths: PathOps, dir: string)
    requires forall k :: k in sps ==> sps[k].refAudio.Some? && paths.pathExists(ResolvePath(paths, dir, sps[k].refAudio.value))
    ensures forall k :: k in Resolved(paths, dir, sps) ==> SpeakerIssue(k, Resolved(paths, dir, sps)[k], paths).None?
  {
  }
}
