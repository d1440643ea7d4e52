/** `apply_to_host_yaml`: append accepted suggestions to host.yaml, on a file
    system whose every step may fail. */
module ApplyExceptions {
  import opened Prelude
  import opened Rules
  import opened Reconcile
  import opened Yaml
  import opened InPlace

  // ----- the file system

  // How a step that writes may fail: before touching its target, or leaving
  // part of the content in it.
  datatype Fault = NoFault | FailsBefore | FailsPartway(partial: string)

  // What such a step leaves in its target; None when it does not touch it.
  function Left(content: string, fault: Fault): Option<string> {
    match fault
    case NoFault => Some(content)
    case FailsBefore => None
    case FailsPartway(partial) => Some(partial)
  }

  // How reading a file that is there may go wrong: it cannot be opened, or its
  // bytes are no UTF-8.
  datatype ReadFault = Readable | OsError | NotUtf8

  datatype Faults = Faults(read: ReadFault, copy: Fault, write: Fault, replace: bool)

  type Files = map<string, string>

  class FileSystem {
    var files: Files
    // every state the files have been in, for a reader or a crash at any moment
    ghost var trace: seq<Files>

    constructor (files: Files)
      ensures this.files == files && trace == [files]
    {
      this.files, this.trace := files, [files];
    }

    method Read(path: string, fault: ReadFault) returns (r: FileText)
      ensures r.Unreadable? <==> path !in files || fault == OsError
      ensures r.Undecodable? <==> path in files && fault == NotUtf8
      ensures r.Decoded? ==> r.text == files[path]
    {
      if path !in files || fault == OsError {
        return Unreadable;
      }
      r := if fault == NotUtf8 then Undecodable else Decoded(files[path]);
    }

    method Put(path: string, content: string, fault: Fault) returns (ok: bool)
      modifies this
      ensures ok == fault.NoFault?
      ensures files == match Left(content, fault)
                       case None => old(files)
                       case Some(now) => old(files)[path := now]
      ensures trace == old(trace) + [files]
    {
      match fault {
        case NoFault => files := files[path := content];
        case FailsBefore =>
        case FailsPartway(partial) => files := files[path := partial];
      }
      trace := trace + [files];
      ok := fault.NoFault?;
    }

    // `os.replace`: the target changes in one step or not at all.
    method Replace(source: string, target: string, fails: bool) returns (ok: bool)
      requires source in files && source != target
      modifies this
      ensures ok == !fails
      ensures files == if fails then old(files) else old(files)[target := old(files)[source]] - {source}
      ensures trace == old(trace) + [files]
    {
      if !fails {
        files := files[target := files[source]] - {source};
      }
      trace := trace + [files];
      ok := !fails;
    }

    method Unlink(path: string)
      modifies this
      ensures files == old(files) - {path}
      ensures trace == old(trace) + [files]
    {
      files := files - {path};
      trace := trace + [files];
    }
  }

  // ----- the libraries: parsing, the schema, serializing

  // `accepts` is whether the schema takes a mapping; `serialize` is the text of
  // a value that YAML can write down.
  datatype Library = Library(parse: string -> Parsed, accepts: Value -> bool, serialize: Value -> string)

  // What YAML reads holds nothing but what it can.
  ghost predicate YamlLoads(lib: Library) {
    forall text: string :: lib.parse(text).Parsed? ==> Loaded(lib.parse(text).value)
  }

  // `yaml.safe_dump`: it cannot represent an enumeration member, nor turn a
  // number of too many digits into text.
  function Dump(lib: Library, v: Value): Option<string> {
    if Plain(v) then Some(lib.serialize(v)) else None
  }

  // ----- the call's result

  datatype AppendResult = AppendResult(added: seq<string>, skippedExisting: seq<string>, skippedRegression: seq<string>)

  datatype Step = ReadStep | ParseStep | MappingStep | ValidateStep | BackupStep | WriteStep

  // Failed is a SuggestApplyError; Crashed any other exception.
  datatype Outcome = Applied(result: AppendResult) | Failed(step: Step) | Crashed

  // ----- what the call decides to do

  function Considered(suggestions: seq<Suggestion>, allowRegression: bool): seq<Suggestion> {
    if suggestions == [] then []
    else
      var init, last := suggestions[..|suggestions| - 1], suggestions[|suggestions| - 1];
      Considered(init, allowRegression) + (if last.category == Regression && !allowRegression then [] else [last])
  }

  function GatedIds(suggestions: seq<Suggestion>, allowRegression: bool): seq<string> {
    if suggestions == [] then []
    else
      var init, last := suggestions[..|suggestions| - 1], suggestions[|suggestions| - 1];
      GatedIds(init, allowRegression) + (if last.category == Regression && !allowRegression then [last.decl.id] else [])
  }

  function NewOnes(suggestions: seq<Suggestion>, existing: set<Value>): seq<Suggestion> {
    if suggestions == [] then []
    else
      var init, last := suggestions[..|suggestions| - 1], suggestions[|suggestions| - 1];
      NewOnes(init, existing) + (if Text(last.decl.id) in existing then [] else [last])
  }

  function OldIds(suggestions: seq<Suggestion>, existing: set<Value>): seq<string> {
    if suggestions == [] then []
    else
      var init, last := suggestions[..|suggestions| - 1], suggestions[|suggestions| - 1];
      OldIds(init, existing) + (if Text(last.decl.id) in existing then [last.decl.id] else [])
  }

  function DeclIds(suggestions: seq<Suggestion>): seq<string> {
    if suggestions == [] then [] else [suggestions[0].decl.id] + DeclIds(suggestions[1..])
  }

  function TextList(texts: seq<string>): seq<Value> {
    if texts == [] then [] else [Text(texts[0])] + TextList(texts[1..])
  }

  // `decl.model_dump()`
  function DeclValue(decl: ExceptionDecl): Value {
    Dict([("id", Text(decl.id)), ("reason", Text(decl.reason)), ("stig_rules_disabled", List(TextList(decl.stigRulesDisabled)))])
  }

  function DeclValues(suggestions: seq<Suggestion>): seq<Value> {
    if suggestions == [] then [] else [DeclValue(suggestions[0].decl)] + DeclValues(suggestions[1..])
  }

  function Letters(s: string): seq<Value> {
    seq(|s|, i requires 0 <= i < |s| => Text([s[i]]))
  }

  // Iterating `data.get("exceptions") or []`; None raises TypeError.
  function Iterate(raw: Option<Value>): Option<seq<Value>> {
    if raw == None || !Truthy(raw.value) then Some([])
    else
      match raw.value
      case List(items) => Some(items)
      case Text(s) => Some(Letters(s))
      case Enum(s) => Some(Letters(s))
      case Bytes(bytes) => Some(seq(|bytes|, i requires 0 <= i < |bytes| => Number(bytes[i])))
      case Set(members) => Some(members)
      case Dict(entries) => Some(seq(|entries|, i requires 0 <= i < |entries| => Text(entries[i].0)))
      case _ => None
  }

  // The ids of the mappings that have one; None when one cannot be hashed.
  function ExistingIds(items: seq<Value>): Option<set<Value>> {
    if items == [] then Some({})
    else
      match ExistingIds(items[..|items| - 1])
      case None => None
      case Some(ids) =>
        var last := items[|items| - 1];
        if !last.Dict? || Get(last.entries, "id") == None then Some(ids)
        else
          var id := Get(last.entries, "id").value;
          if id.List? || id.Dict? || id.Set? then None else Some(ids + {id})
  }

  // What reading `raw` and filtering comes to, before anything is written.
  datatype Plan =
    | Stop(outcome: Outcome)
    | Append(data: seq<(string, Value)>, items: seq<Value>, toApply: seq<Suggestion>, skipped: seq<string>)

  function PlanFor(lib: Library, raw: string, considered: seq<Suggestion>): Plan {
    match lib.parse(raw)
    case SyntaxError => Stop(Failed(ParseStep))
    case OtherError => Stop(Crashed)
    case Parsed(parsed) =>
      var data := if Truthy(parsed) then parsed else Dict([]);
      if !data.Dict? then Stop(Failed(MappingStep))
      else
        match Iterate(Get(data.entries, "exceptions"))
        case None => Stop(Crashed)
        case Some(items) =>
          match ExistingIds(items)
          case None => Stop(Crashed)
          case Some(existing) =>
            Append(data.entries, items, NewOnes(considered, existing), OldIds(considered, existing))
  }

  function Candidate(p: Plan): seq<(string, Value)>
    requires p.Append?
  {
    Put(p.data, "exceptions", List(p.items + DeclValues(p.toApply)))
  }

  // The call goes on to back up and write.
  predicate WritesFile(lib: Library, p: Plan) {
    p.Append? && p.toApply != [] && lib.accepts(Dict(Candidate(p)))
  }

  // The new content of host.yaml: the candidate as validating it left it.
  function NewContent(lib: Library, p: Plan): Option<string>
    requires p.Append?
  {
    Dump(lib, Dict(Edited(Candidate(p))))
  }

  // What the plan writes, if it can be written, reads back.
  predicate WrittenReadsBack(lib: Library, p: Plan) {
    p.Append? && NewContent(lib, p).Some? ==>
      lib.parse(NewContent(lib, p).value) == Parsed(Dict(Edited(Candidate(p))))
  }

  // How a call that could read the file ends.
  function OutcomeOf(lib: Library, faults: Faults, p: Plan, gated: seq<string>): Outcome {
    match p
    case Stop(outcome) => outcome
    case Append(_, _, toApply, skipped) =>
      if toApply == [] then Applied(AppendResult([], skipped, gated))
      else if !lib.accepts(Dict(Candidate(p))) then Failed(ValidateStep)
      else if !faults.copy.NoFault? then Failed(BackupStep)
      else if NewContent(lib, p) == None then Crashed
      else if !faults.write.NoFault? || faults.replace then Failed(WriteStep)
      else Applied(AppendResult(DeclIds(toApply), skipped, gated))
  }

  // ----- the loops of steps 1 and 4

  predicate LetThrough(s: Suggestion, allowRegression: bool) {
    allowRegression || s.category != Regression
  }

  function IdsOf(suggestions: seq<Suggestion>): seq<string> {
    Map(suggestions, (s: Suggestion) => s.decl.id)
  }

  // What the gate keeps, in order, and the ids of what it holds back.
  lemma {:induction false} ConsideredIs(suggestions: seq<Suggestion>, allowRegression: bool)
    ensures Considered(suggestions, allowRegression) == Filter(suggestions, (s: Suggestion) => LetThrough(s, allowRegression))
    ensures GatedIds(suggestions, allowRegression)
         == IdsOf(Filter(suggestions, (s: Suggestion) => !LetThrough(s, allowRegression)))
  {
    var keep, drop := (s: Suggestion) => LetThrough(s, allowRegression), (s: Suggestion) => !LetThrough(s, allowRegression);
    if suggestions != [] {
      var init, last := suggestions[..|suggestions| - 1], suggestions[|suggestions| - 1];
      ConsideredIs(init, allowRegression);
      assert suggestions == init + [last];
      FilterConcat(init, [last], keep);
      FilterConcat(init, [last], drop);
      assert Filter([last], keep) == (if keep(last) then [last] else []) && [last][1..] == [];
      assert Filter([last], drop) == if drop(last) then [last] else [];
    }
  }

  // A suggestion is considered exactly when it is no gated regression; none is
  // lost.
  lemma ConsideredIff(suggestions: seq<Suggestion>, allowRegression: bool, s: Suggestion)
    ensures s in Considered(suggestions, allowRegression) <==> s in suggestions && (allowRegression || s.category != Regression)
    ensures |Considered(suggestions, allowRegression)| + |GatedIds(suggestions, allowRegression)| == |suggestions|
  {
    ConsideredIs(suggestions, allowRegression);
    FilterSplits(suggestions, (x: Suggestion) => LetThrough(x, allowRegression), (x: Suggestion) => !LetThrough(x, allowRegression));
  }

  // Of what is considered, what is new, in order, and the ids of the rest.
  lemma {:induction false} NewOnesAre(suggestions: seq<Suggestion>, existing: set<Value>)
    ensures NewOnes(suggestions, existing) == Filter(suggestions, (s: Suggestion) => Text(s.decl.id) !in existing)
    ensures OldIds(suggestions, existing) == IdsOf(Filter(suggestions, (s: Suggestion) => Text(s.decl.id) in existing))
  {
    var keep, drop := (s: Suggestion) => Text(s.decl.id) !in existing, (s: Suggestion) => Text(s.decl.id) in existing;
    if suggestions != [] {
      var init, last := suggestions[..|suggestions| - 1], suggestions[|suggestions| - 1];
      NewOnesAre(init, existing);
      assert suggestions == init + [last];
      FilterConcat(init, [last], keep);
      FilterConcat(init, [last], drop);
      assert Filter([last], keep) == (if keep(last) then [last] else []) && [last][1..] == [];
      assert Filter([last], drop) == if drop(last) then [last] else [];
    }
  }

  method FilterRegressions(suggestions: seq<Suggestion>, allowRegression: bool)
    returns (considered: seq<Suggestion>, skipped: seq<string>)
    ensures considered == Considered(suggestions, allowRegression) && skipped == GatedIds(suggestions, allowRegression)
    ensures considered == Filter(suggestions, (s: Suggestion) => LetThrough(s, allowRegression))
    ensures skipped == IdsOf(Filter(suggestions, (s: Suggestion) => !LetThrough(s, allowRegression)))
  {
    ConsideredIs(suggestions, allowRegression);
    considered, skipped := [], [];
    var i := 0;
    while i < |suggestions|
      invariant 0 <= i <= |suggestions|
      invariant considered == Considered(suggestions[..i], allowRegression)
      invariant skipped == GatedIds(suggestions[..i], allowRegression)
    {
      assert suggestions[..i + 1][..i] == suggestions[..i];
      if suggestions[i].category == Regression && !allowRegression {
        skipped := skipped + [suggestions[i].decl.id];
      } else {
        considered := considered + [suggestions[i]];
      }
      i := i + 1;
    }
    assert suggestions[..i] == suggestions;
  }

  method FilterExisting(suggestions: seq<Suggestion>, existing: set<Value>)
    returns (toApply: seq<Suggestion>, skipped: seq<string>)
    ensures toApply == NewOnes(suggestions, existing) && skipped == OldIds(suggestions, existing)
    ensures toApply == Filter(suggestions, (s: Suggestion) => Text(s.decl.id) !in existing)
    ensures skipped == IdsOf(Filter(suggestions, (s: Suggestion) => Text(s.decl.id) in existing))
  {
    NewOnesAre(suggestions, existing);
    toApply, skipped := [], [];
    var i := 0;
    while i < |suggestions|
      invariant 0 <= i <= |suggestions|
      invariant toApply == NewOnes(suggestions[..i], existing)
      invariant skipped == OldIds(suggestions[..i], existing)
    {
      assert suggestions[..i + 1][..i] == suggestions[..i];
      if Text(suggestions[i].decl.id) in existing {
        skipped := skipped + [suggestions[i].decl.id];
      } else {
        toApply := toApply + [suggestions[i]];
      }
      i := i + 1;
    }
    assert suggestions[..i] == suggestions;
  }

  // ----- the protocol

  function BackupOf(path: string): string {
    path + ".bak"
  }

  function TempOf(path: string): string {
    path + ".tmp"
  }

  lemma PathsDiffer(path: string)
    ensures path != BackupOf(path) && path != TempOf(path) && BackupOf(path) != TempOf(path)
  {
    assert |BackupOf(path)| == |path| + 4 && |TempOf(path)| == |path| + 4;
    assert BackupOf(path)[|path| + 1] == 'b' && TempOf(path)[|path| + 1] == 't';
  }

  // The file holds `content`.
  predicate Holds(files: Files, path: string, content: Option<string>) {
    content.Some? && path in files && files[path] == content.value
  }

  function ContentOf(files: Files, path: string): Option<string> {
    if path in files then Some(files[path]) else None
  }

  // Files other than host.yaml, its backup and its temporary are untouched.
  ghost predicate OthersKept(before: Files, after: Files, path: string) {
    forall p :: p != path && p != path + ".bak" && p != path + ".tmp" ==> ContentOf(after, p) == ContentOf(before, p)
  }

  // In every state from `from` on, host.yaml is the old content or, if there is
  // one, the complete new content.
  ghost predicate Atomic(trace: seq<Files>, from: nat, path: string, before: string, after: Option<string>) {
    forall k :: from <= k < |trace| ==> Holds(trace[k], path, Some(before)) || (after.Some? && Holds(trace[k], path, after))
  }

  // What a call that backs up and writes leaves beside host.yaml.
  predicate LeavesBeside(before: Files, after: Files, faults: Faults, path: string, raw: string) {
    && (ContentOf(after, path + ".bak") == match Left(raw, faults.copy)
                                            case None => ContentOf(before, path + ".bak")
                                            case Some(now) => Some(now))
    && (ContentOf(after, path + ".tmp") == if faults.copy.NoFault? then None else ContentOf(before, path + ".tmp"))
  }

  // Step 8: write beside, replace, clean up.
  method WriteAtomically(fs: FileSystem, lib: Library, faults: Faults, path: string, raw: string, validated: Value)
    returns (error: Option<Outcome>)
    requires Holds(fs.files, path, Some(raw))
    modifies fs
    ensures error == Some(Crashed) <==> Dump(lib, validated) == None
    ensures error == Some(Failed(WriteStep)) <==> Dump(lib, validated).Some? && (!faults.write.NoFault? || faults.replace)
    ensures error == None <==> Dump(lib, validated).Some? && faults.write.NoFault? && !faults.replace
    ensures old(fs.trace) <= fs.trace
    ensures Atomic(fs.trace, |old(fs.trace)|, path, raw, if error == None then Dump(lib, validated) else None)
    ensures Holds(fs.files, path, if error == None then Dump(lib, validated) else Some(raw))
    ensures TempOf(path) !in fs.files
    ensures forall p :: p != path && p != TempOf(path) ==> ContentOf(fs.files, p) == ContentOf(old(fs.files), p)
  {
    hide Plain;
    PathsDiffer(path);
    var text := Dump(lib, validated);
    if text == None {
      fs.Unlink(TempOf(path));
      return Some(Crashed);
    }
    var written := fs.Put(TempOf(path), text.value, faults.write);
    if !written {
      fs.Unlink(TempOf(path));
      return Some(Failed(WriteStep));
    }
    var replaced := fs.Replace(TempOf(path), path, faults.replace);
    fs.Unlink(TempOf(path));
    return if replaced then None else Some(Failed(WriteStep));
  }

  // Steps 7 and 8: back up, then write.
  method Commit(fs: FileSystem, lib: Library, faults: Faults, path: string, raw: string, validated: Value)
    returns (error: Option<Outcome>)
    requires Holds(fs.files, path, Some(raw))
    modifies fs
    ensures error == Some(Failed(BackupStep)) <==> !faults.copy.NoFault?
    ensures error == Some(Crashed) <==> faults.copy.NoFault? && Dump(lib, validated) == None
    ensures error == Some(Failed(WriteStep))
       <==> faults.copy.NoFault? && Dump(lib, validated).Some? && (!faults.write.NoFault? || faults.replace)
    ensures error == None
       <==> faults.copy.NoFault? && Dump(lib, validated).Some? && faults.write.NoFault? && !faults.replace
    // the files at every moment, and in the end
    ensures old(fs.trace) <= fs.trace
    ensures Atomic(fs.trace, |old(fs.trace)|, path, raw, if error == None then Dump(lib, validated) else None)
    ensures Holds(fs.files, path, if error == None then Dump(lib, validated) else Some(raw))
    ensures LeavesBeside(old(fs.files), fs.files, faults, path, raw)
    ensures OthersKept(old(fs.files), fs.files, path)
  {
    hide Dump;
    PathsDiffer(path);
    assert BackupOf(path) == path + ".bak" && TempOf(path) == path + ".tmp";
    hide TempOf, BackupOf;
    // shutil.copy2
    var copied := fs.Put(BackupOf(path), raw, faults.copy);
    if !copied {
      return Some(Failed(BackupStep));
    }
    error := WriteAtomically(fs, lib, faults, path, raw, validated);
  }

  // Steps 2 to 4: what the content read comes to.
  method MakePlan(lib: Library, raw: string, considered: seq<Suggestion>) returns (plan: Plan)
    ensures plan == PlanFor(lib, raw, considered)
  {
    var parsed := lib.parse(raw);
    match parsed {
      case SyntaxError =>
        return Stop(Failed(ParseStep));
      case OtherError =>
        return Stop(Crashed);
      case Parsed(_) =>
    }
    var data := if Truthy(parsed.value) then parsed.value else Dict([]);
    if !data.Dict? {
      return Stop(Failed(MappingStep));
    }
    var items := Iterate(Get(data.entries, "exceptions"));
    if items == None {
      return Stop(Crashed);
    }
    var existing := ExistingIds(items.value);
    if existing == None {
      return Stop(Crashed);
    }
    var toApply, skipped := FilterExisting(considered, existing.value);
    return Append(data.entries, items.value, toApply, skipped);
  }

  predicate AllGated(suggestions: seq<Suggestion>, allowRegression: bool) {
    !allowRegression && forall s :: s in suggestions ==> s.category == Regression
  }

  lemma GatedWriteNothing(lib: Library, faults: Faults, raw: string, suggestions: seq<Suggestion>, allowRegression: bool)
    ensures AllGated(suggestions, allowRegression) ==>
      var p := PlanFor(lib, raw, Considered(suggestions, allowRegression));
      var outcome := OutcomeOf(lib, faults, p, GatedIds(suggestions, allowRegression));
      !WritesFile(lib, p) && (outcome.Applied? ==> outcome.result.added == [])
  {
    hide Considered, GatedIds, ExistingIds, Iterate;
    if AllGated(suggestions, allowRegression) {
      ConsideredIs(suggestions, allowRegression);
      FilterDropsAll(suggestions, (s: Suggestion) => LetThrough(s, allowRegression));
      assert Considered(suggestions, allowRegression) == [];
    }
  }

  // Whatever step fails, and at every moment in between, host.yaml is either
  // untouched or already the complete, validated new file.
  method Apply(
    fs: FileSystem, lib: Library, faults: Faults, path: string, suggestions: seq<Suggestion>, allowRegression: bool)
    returns (outcome: Outcome)
    modifies fs
    ensures old(fs.trace) <= fs.trace
    ensures OthersKept(old(fs.files), fs.files, path)
    ensures path !in old(fs.files) || faults.read != Readable
        ==> && outcome == (if path !in old(fs.files) || faults.read == OsError then Failed(ReadStep) else Crashed)
            && fs.files == old(fs.files) && fs.trace == old(fs.trace)
    ensures path in old(fs.files) && faults.read == Readable ==>
              var raw := old(fs.files[path]);
              var plan := PlanFor(lib, raw, Considered(suggestions, allowRegression));
              var done := outcome.Applied? && WritesFile(lib, plan);
              && outcome == OutcomeOf(lib, faults, plan, GatedIds(suggestions, allowRegression))
              && (if WritesFile(lib, plan) then LeavesBeside(old(fs.files), fs.files, faults, path, raw)
                  else fs.files == old(fs.files) && fs.trace == old(fs.trace))
              // host.yaml at every moment, and in the end
              && Atomic(fs.trace, |old(fs.trace)|, path, raw, if done then NewContent(lib, plan) else None)
              && Holds(fs.files, path, if done then NewContent(lib, plan) else Some(raw))
              && (done ==> NewContent(lib, plan).Some?)
    // a gated regression is never written
    ensures AllGated(suggestions, allowRegression) ==>
              fs.files == old(fs.files) && fs.trace == old(fs.trace) && (outcome.Applied? ==> outcome.result.added == [])
  {
    hide AllGated;
    if path in fs.files {
      GatedWriteNothing(lib, faults, fs.files[path], suggestions, allowRegression);
    }
    var considered, gated := FilterRegressions(suggestions, allowRegression);
    var raw := fs.Read(path, faults.read);
    match raw {
      case Unreadable =>
        return Failed(ReadStep);
      case Undecodable =>
        return Crashed;
      case Decoded(_) =>
    }
    var plan := MakePlan(lib, raw.text, considered);
    if plan.Stop? {
      return plan.outcome;
    }
    if plan.toApply == [] {
      return Applied(AppendResult([], plan.skipped, gated));
    }
    if !lib.accepts(Dict(Candidate(plan))) {
      return Failed(ValidateStep);
    }
    var error := Commit(fs, lib, faults, path, raw.text, Dict(Edited(Candidate(plan))));
    outcome := if error == None then Applied(AppendResult(DeclIds(plan.toApply), plan.skipped, gated)) else error.value;
  }

  // ----- what the new file says

  lemma OneMoreId(items: seq<Value>, decl: ExceptionDecl)
    requires ExistingIds(items).Some?
    ensures ExistingIds(items + [DeclValue(decl)]) == Some(ExistingIds(items).value + {Text(decl.id)})
  {
    hide TextList;
    var one := items + [DeclValue(decl)];
    var entries := DeclValue(decl).entries;
    assert entries[0] == ("id", Text(decl.id)) && Get(entries, "id") == Some(Text(decl.id));
    assert one[..|one| - 1] == items;
  }

  lemma {:induction false} ExistingAfter(items: seq<Value>, applied: seq<Suggestion>)
    requires ExistingIds(items).Some?
    ensures var after := ExistingIds(items + DeclValues(applied));
            && after.Some?
            && ExistingIds(items).value <= after.value
            && forall s :: s in applied ==> Text(s.decl.id) in after.value
    decreases |applied|
  {
    hide ExistingIds, DeclValue;
    if applied == [] {
      assert items + DeclValues(applied) == items;
    } else {
      var one := items + [DeclValue(applied[0].decl)];
      OneMoreId(items, applied[0].decl);
      assert items + DeclValues(applied) == one + DeclValues(applied[1..]);
      ExistingAfter(one, applied[1..]);
      assert forall s :: s in applied ==> s == applied[0] || s in applied[1..];
    }
  }

  lemma {:induction false} NewOnesMembers(suggestions: seq<Suggestion>, existing: set<Value>)
    ensures forall s :: s in NewOnes(suggestions, existing) <==> s in suggestions && Text(s.decl.id) !in existing
  {
    if suggestions != [] {
      var init, last := suggestions[..|suggestions| - 1], suggestions[|suggestions| - 1];
      assert suggestions == init + [last];
      NewOnesMembers(init, existing);
    }
  }

  lemma PlanParts(lib: Library, raw: string, considered: seq<Suggestion>)
    requires PlanFor(lib, raw, considered).Append?
    ensures var p := PlanFor(lib, raw, considered);
            ExistingIds(p.items).Some? && p.toApply == NewOnes(considered, ExistingIds(p.items).value)
  {
  }

  // The written file lists the old exceptions first and the new ones after
  // them.
  lemma ExceptionsGrow(lib: Library, raw: string, considered: seq<Suggestion>)
    requires PlanFor(lib, raw, considered).Append? && NewContent(lib, PlanFor(lib, raw, considered)).Some?
    requires WrittenReadsBack(lib, PlanFor(lib, raw, considered))
    ensures var p := PlanFor(lib, raw, considered);
            var written := lib.parse(NewContent(lib, p).value);
            && written.Parsed? && written.value.Dict?
            && Get(written.value.entries, "exceptions") == Some(List(p.items + DeclValues(p.toApply)))
  {
    hide Plain, Edited;
    var p := PlanFor(lib, raw, considered);
    EditedKeeps(Candidate(p), "exceptions");
    GetPut(p.data, "exceptions", List(p.items + DeclValues(p.toApply)), "exceptions");
  }

  // Two blocks agree at `key`, or are the same value that is no mapping.
  predicate SameUnder(before: Option<Value>, after: Option<Value>, key: string) {
    if before.Some? && before.value.Dict? then
      after.Some? && after.value.Dict? && Get(after.value.entries, key) == Get(before.value.entries, key)
    else after == before
  }

  // The rest of host.yaml reads as before: every other key, but for a `meta`
  // and a data disk's `partition` that validating filled in.
  lemma RestKept(lib: Library, raw: string, considered: seq<Suggestion>, key: string)
    requires YamlLoads(lib) && PlanFor(lib, raw, considered).Append? && NewContent(lib, PlanFor(lib, raw, considered)).Some?
    requires WrittenReadsBack(lib, PlanFor(lib, raw, considered))
    ensures var p := PlanFor(lib, raw, considered);
            var written := lib.parse(NewContent(lib, p).value);
            && written.Parsed? && written.value.Dict?
            && (key in ["exceptions", "disk"] || (key == "meta" && Get(p.data, "meta") == None)
                || Get(written.value.entries, key) == Get(p.data, key))
            && (key == "data_disks" || SameUnder(Get(p.data, "disk"), Get(written.value.entries, "disk"), key))
  {
    hide Plain, Edited, DiskEdited;
    var p := PlanFor(lib, raw, considered);
    var added := List(p.items + DeclValues(p.toApply));
    var top := Candidate(p);
    GetPut(p.data, "exceptions", added, key);
    GetPut(p.data, "exceptions", added, "meta");
    GetPut(p.data, "exceptions", added, "disk");
    EditedDisk(top);
    if key != "disk" && (key != "meta" || Get(top, "meta").Some?) {
      EditedKeeps(top, key);
    }
    if Get(top, "disk").Some? && Get(top, "disk").value.Dict? {
      var disk := Get(top, "disk").value.entries;
      CandidateLoaded(lib, raw, considered);
      EditedPlainIff(top);
      assert !Bare(disk);
      if key != "data_disks" {
        DiskEditedKeeps(disk, key);
      }
    }
  }

  lemma {:induction false} TextListLoaded(texts: seq<string>)
    ensures Loaded(List(TextList(texts))) && Plain(List(TextList(texts)))
  {
    if texts != [] {
      TextListLoaded(texts[1..]);
      var all, rest := TextList(texts), TextList(texts[1..]);
      assert forall i :: 0 < i < |all| ==> all[i] == rest[i - 1];
    }
  }

  lemma {:induction false} DeclValuesLoaded(applied: seq<Suggestion>)
    ensures Loaded(List(DeclValues(applied))) && Plain(List(DeclValues(applied)))
  {
    if applied != [] {
      var decl := applied[0].decl;
      TextListLoaded(decl.stigRulesDisabled);
      DeclValuesLoaded(applied[1..]);
      var all, rest := DeclValues(applied), DeclValues(applied[1..]);
      assert forall i :: 0 < i < |all| ==> all[i] == rest[i - 1];
      assert Loaded(DeclValue(decl)) && Plain(DeclValue(decl));
    }
  }

  lemma IterateLoaded(raw: Option<Value>)
    requires raw.Some? ==> Loaded(raw.value)
    ensures Iterate(raw).Some? ==> Loaded(List(Iterate(raw).value))
  {
  }

  // What is validated was all read from YAML or made of plain parts.
  lemma CandidateLoaded(lib: Library, raw: string, considered: seq<Suggestion>)
    requires YamlLoads(lib) && PlanFor(lib, raw, considered).Append?
    ensures Loaded(Dict(Candidate(PlanFor(lib, raw, considered))))
  {
    hide DeclValues, Iterate, ExistingIds;
    var p := PlanFor(lib, raw, considered);
    assert Loaded(Dict(p.data));
    var before := Get(p.data, "exceptions");
    if before.Some? {
      GetPlain(p.data, "exceptions");
    }
    IterateLoaded(before);
    DeclValuesLoaded(p.toApply);
    var items := p.items + DeclValues(p.toApply);
    assert forall i :: 0 <= i < |items| ==> items[i] == if i < |p.items| then p.items[i] else DeclValues(p.toApply)[i - |p.items|];
    assert Loaded(List(items));
    PutLoaded(p.data, "exceptions", List(items));
  }

  // Planning again from the written file leaves nothing to apply.
  lemma SecondPlanIsEmpty(lib: Library, raw: string, considered: seq<Suggestion>)
    requires PlanFor(lib, raw, considered).Append? && PlanFor(lib, raw, considered).toApply != []
    requires NewContent(lib, PlanFor(lib, raw, considered)).Some? && WrittenReadsBack(lib, PlanFor(lib, raw, considered))
    ensures var again := PlanFor(lib, NewContent(lib, PlanFor(lib, raw, considered)).value, considered);
            again.Append? && again.toApply == []
  {
    hide NewContent, DeclValues, ExistingIds, NewOnes;
    var p := PlanFor(lib, raw, considered);
    var text := NewContent(lib, p).value;
    ExceptionsGrow(lib, raw, considered);
    var written := lib.parse(text).value;
    var items := p.items + DeclValues(p.toApply);
    assert DeclValues(p.toApply) != [] by {
      DeclValuesLength(p.toApply);
    }
    assert written.entries != [] by {
      assert Get([], "exceptions") == None;
    }
    PlanParts(lib, raw, considered);
    ExistingAfter(p.items, p.toApply);
    var before, after := ExistingIds(p.items).value, ExistingIds(items).value;
    assert Iterate(Get(written.entries, "exceptions")) == Some(items);
    NewOnesMembers(considered, before);
    NewOnesMembers(considered, after);
    HasMember(NewOnes(considered, after));
  }

  lemma {:induction false} DeclValuesLength(applied: seq<Suggestion>)
    ensures |DeclValues(applied)| == |applied|
  {
    if applied != [] {
      DeclValuesLength(applied[1..]);
    }
  }

  // A second identical call after a successful one writes nothing at all,
  // whatever goes wrong in it.
  method ApplyTwice(
    fs: FileSystem, lib: Library, faults: Faults, again: Faults, path: string, suggestions: seq<Suggestion>, allowRegression: bool)
    returns (first: Outcome, second: Outcome, ghost between: (Files, seq<Files>))
    requires path in fs.files ==>
      WrittenReadsBack(lib, PlanFor(lib, fs.files[path], Considered(suggestions, allowRegression)))
    modifies fs
    ensures first.Applied? ==> fs.files == between.0 && fs.trace == between.1
    ensures first.Applied? && second.Applied? ==> second.result.added == []
    ensures first.Applied? && again.read == Readable ==> second.Applied?
  {
    first := Apply(fs, lib, faults, path, suggestions, allowRegression);
    between := (fs.files, fs.trace);
    if first.Applied? {
      ghost var raw := old(fs.files[path]);
      ghost var considered := Considered(suggestions, allowRegression);
      if PlanFor(lib, raw, considered).toApply != [] {
        SecondPlanIsEmpty(lib, raw, considered);
      }
    }
    second := Apply(fs, lib, again, path, suggestions, allowRegression);
  }
}
