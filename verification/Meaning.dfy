/** What each operation does to a definition and when it is accepted, said apart from the code that does it. */
module Meaning {
  import opened Prelude
  import opened Definition
  import opened Scalars
  import opened Edits

  // ---- the properties of a step ---------------------------------------------------------------

  datatype Value = Word(text: string) | Number(n: int)

  /** What a step has for a settable property; nothing for any other name. */
  function ValueIn(s: Step, property: string): (r: Option<Value>) {
    match property
    case "plugin_ref" => Some(Word(s.pluginRef))
    case "image" => Some(Word(s.image))
    case "engine_type" => Some(Word(s.engineType))
    case "effect_class" => Some(Number(s.effectClass))
    case "lease_scope" => Some(Number(s.leaseScope))
    case "timeout_seconds" => Some(Number(s.timeoutSeconds))
    case _ => None
  }

  function EnumOf(property: string): (r: seq<string>) {
    match property
    case "effect_class" => EFFECT_CLASSES
    case "lease_scope" => LEASE_SCOPES
    case _ => []
  }

  /** A text stands for a value: itself, a declared name's number, or a whole number of 32 bits. */
  ghost predicate Reads(property: string, text: string, v: Value) {
    match v
    case Word(word) => text == word && (property == "plugin_ref" || property == "image" || property == "engine_type")
    case Number(n) =>
      if property == "timeout_seconds" then text != "" && AllDigits(text) && n == Numeral(text) && n <= MAX_UINT32
      else 0 <= n < |EnumOf(property)| && EnumOf(property)[n] == text
  }

  /** Only the named property may differ between the two. */
  ghost predicate OnlyProperty(s: Step, t: Step, property: string) {
    && (forall other: string :: other != property ==> ValueIn(t, other) == ValueIn(s, other))
    && t == s.(pluginRef := t.pluginRef, effectClass := t.effectClass, leaseScope := t.leaseScope, image := t.image,
               engineType := t.engineType, timeoutSeconds := t.timeoutSeconds)
  }

  lemma NumberRead(property: string, text: string, n: int)
    requires property == "timeout_seconds" || property == "effect_class" || property == "lease_scope"
    ensures Reads(property, text, Number(n)) <==>
            if property == "timeout_seconds" then ParseUint32(text) == Some(n)
            else ValueOf(EnumOf(property), text) == Some(n)
  {
    EnumsAreProper();
    if property != "timeout_seconds" {
      NameRoundTrip(EnumOf(property), n);
      if Reads(property, text, Number(n)) { assert NameOf(EnumOf(property), n) == text; }
    }
  }

  /** Some value of the property is written so. */
  ghost predicate Readable(property: string, text: string) {
    exists v :: Reads(property, text, v)
  }

  lemma ReadableMeans(property: string, text: string)
    ensures property == "plugin_ref" || property == "image" || property == "engine_type" ==> Readable(property, text)
    ensures property == "timeout_seconds" ==> (Readable(property, text) <==> ParseUint32(text).Some?)
    ensures property == "effect_class" || property == "lease_scope" ==>
              (Readable(property, text) <==> ValueOf(EnumOf(property), text).Some?)
  {
    if property == "plugin_ref" || property == "image" || property == "engine_type" {
      assert Reads(property, text, Word(text));
    } else if property == "timeout_seconds" || property == "effect_class" || property == "lease_scope" {
      forall n ensures Reads(property, text, Number(n)) <==>
                         if property == "timeout_seconds" then ParseUint32(text) == Some(n)
                         else ValueOf(EnumOf(property), text) == Some(n)
      {
        NumberRead(property, text, n);
      }
      var read := if property == "timeout_seconds" then ParseUint32(text) else ValueOf(EnumOf(property), text);
      if read.Some? { assert Reads(property, text, Number(read.value)); }
      assert forall word :: !Reads(property, text, Word(word));
      if v :| Reads(property, text, v) { assert v.Number?; }
    }
  }

  /** The text the inverse is given for a value: one that stands for it, or no text for an undeclared enum value. */
  ghost predicate Kept(property: string, was: string, v: Value) {
    Reads(property, was, v) || (v.Number? && was == "" && EnumOf(property) != [] && !Declared(EnumOf(property), v.n))
  }

  lemma KeptNumber(property: string, n: int)
    requires property == "effect_class" || property == "lease_scope"
    ensures Kept(property, NameOf(EnumOf(property), n), Number(n))
  {
    EnumsAreProper();
  }

  /** What an accepted property edit returns. */
  ghost predicate PropertySet(s: Step, property: string, text: string, t: Step, was: string) {
    && OnlyProperty(s, t, property)
    && ValueIn(t, property).Some? && Reads(property, text, ValueIn(t, property).value)
    && Kept(property, was, ValueIn(s, property).value)
  }

  lemma WordMeans(s: Step, property: string, text: string)
    requires property == "plugin_ref" || property == "image" || property == "engine_type"
    ensures WithProperty(s, property, text).Ok? && Readable(property, text)
    ensures var (t, was) := WithProperty(s, property, text).value; PropertySet(s, property, text, t, was)
  {
    ReadableMeans(property, text);
  }

  lemma NumberMeans(s: Step, property: string, text: string)
    requires property == "timeout_seconds" || property == "effect_class" || property == "lease_scope"
    ensures WithProperty(s, property, text).Ok? <==> Readable(property, text)
    ensures WithProperty(s, property, text).Err? ==> WithProperty(s, property, text) == Err(BadValue)
    ensures WithProperty(s, property, text).Ok? ==>
              var (t, was) := WithProperty(s, property, text).value; PropertySet(s, property, text, t, was)
  {
    ReadableMeans(property, text);
    if WithProperty(s, property, text).Ok? {
      var (t, was) := WithProperty(s, property, text).value;
      NumberRead(property, text, ValueIn(t, property).value.n);
      if property == "timeout_seconds" {
        UintRoundTrip(s.timeoutSeconds);
        NumberRead(property, was, s.timeoutSeconds);
      } else {
        KeptNumber(property, ValueIn(s, property).value.n);
      }
    }
  }

  /**
   A property edit is accepted exactly for a settable property and a text that stands
   for a value of it; that value is then there, nothing else differs, and what is
   returned for the inverse is the text of the value before, or no text where the
   value before was undeclared.
   */
  lemma PropertyMeans(s: Step, property: string, text: string)
    ensures WithProperty(s, property, text).Ok? <==> Readable(property, text)
    ensures WithProperty(s, property, text) == Err(UnknownProperty) <==> ValueIn(s, property).None?
    ensures WithProperty(s, property, text).Ok? ==>
              var (t, was) := WithProperty(s, property, text).value; PropertySet(s, property, text, t, was)
  {
    if property == "plugin_ref" || property == "image" || property == "engine_type" {
      WordMeans(s, property, text);
    } else if property == "timeout_seconds" || property == "effect_class" || property == "lease_scope" {
      NumberMeans(s, property, text);
    } else {
      assert EnumOf(property) == [];
      assert forall v :: !Reads(property, text, v);
    }
  }

  // ---- what each kind of edit makes of its step -------------------------------------------------

  /** The one entry that passes a test. */
  predicate Only<T>(s: seq<T>, test: T -> bool, i: nat) {
    i < |s| && test(s[i]) && forall j :: 0 <= j < |s| && j != i ==> !test(s[j])
  }

  predicate NoneOf<T>(s: seq<T>, test: T -> bool) {
    forall j :: 0 <= j < |s| ==> !test(s[j])
  }

  /** Where a new entry goes: where it was asked to, or last. */
  function Place<T>(s: seq<T>, index: Option<nat>): (r: nat) {
    if index.Some? then index.value else |s|
  }

  /** Which edits of its own step are accepted. */
  ghost predicate Takes(op: Operation, s: Step)
    requires OnStep(op)
  {
    match op
    case SetProperty(_, property, value) => Readable(property, value)
    case SetStepConfig(_, key, _, remove) => key != "" && (remove ==> key in s.config)
    case SetStepSecret(_, env, _, remove, index) =>
      && IsEnvName(env)
      && if remove then exists i: nat :: Only(s.secrets, BoundTo(env), i)
         else
           || ((exists i: nat :: Only(s.secrets, BoundTo(env), i)) && index.None?)
           || (NoneOf(s.secrets, BoundTo(env)) && Place(s.secrets, index) <= |s.secrets|)
    case SetStepCapability(_, capability, remove, index) =>
      && 0 < capability < |CAPABILITIES|
      && if remove then exists i: nat :: Only(s.capabilities, EqualTo(capability), i)
         else capability !in s.capabilities && Place(s.capabilities, index) <= |s.capabilities|
    case Rename(_, _) => true
  }

  ghost predicate SecretsBecome(
    s: seq<StepSecret>, t: seq<StepSecret>, env: string, secret: string, remove: bool, index: Option<nat>)
  {
    if remove then exists i: nat :: Only(s, BoundTo(env), i) && t == s[..i] + s[i + 1..]
    else if NoneOf(s, BoundTo(env)) then
      var k := Place(s, index);
      k <= |s| && t == s[..k] + [StepSecret(secret, env)] + s[k..]
    else exists i: nat :: Only(s, BoundTo(env), i) && t == s[i := StepSecret(secret, env)]
  }

  ghost predicate CapabilitiesBecome(s: seq<int>, t: seq<int>, capability: int, remove: bool, index: Option<nat>) {
    if remove then exists i: nat :: Only(s, EqualTo(capability), i) && t == s[..i] + s[i + 1..]
    else
      var k := Place(s, index);
      k <= |s| && t == s[..k] + [capability] + s[k..]
  }

  /** What an accepted edit makes of its step, every other field as it was. */
  ghost predicate StepBecomes(op: Operation, s: Step, t: Step)
    requires OnStep(op)
  {
    match op
    case SetProperty(_, property, value) =>
      && OnlyProperty(s, t, property)
      && ValueIn(t, property).Some? && Reads(property, value, ValueIn(t, property).value)
    case SetStepConfig(_, key, text, remove) =>
      && t == s.(config := t.config)
      && (key in t.config <==> !remove) && (!remove ==> t.config[key] == text)
      && (forall k :: k != key ==>
            (k in t.config <==> k in s.config) && (k in s.config ==> t.config[k] == s.config[k]))
    case SetStepSecret(_, env, secret, remove, index) =>
      t == s.(secrets := t.secrets) && SecretsBecome(s.secrets, t.secrets, env, secret, remove, index)
    case SetStepCapability(_, capability, remove, index) =>
      && t == s.(capabilities := t.capabilities)
      && CapabilitiesBecome(s.capabilities, t.capabilities, capability, remove, index)
    case Rename(_, name) => t == s.(name := name)
  }

  lemma {:induction false} CountMeans<T>(s: seq<T>, test: T -> bool)
    ensures CountOf(s, test) == 0 <==> NoneOf(s, test)
    ensures CountOf(s, test) == 1 <==> FirstAt(s, test) >= 0 && Only(s, test, FirstAt(s, test))
    ensures forall i: nat :: Only(s, test, i) ==> i == FirstAt(s, test)
  {
    NoMatch(s, test);
    if s != [] {
      var rest := s[1..];
      CountMeans(rest, test);
      NoMatch(rest, test);
      var at := FirstAt(s, test);
      assert forall j :: 0 <= j < |rest| ==> rest[j] == s[j + 1];
      if at == 0 {
        if NoneOf(rest, test) { assert Only(s, test, 0); }
        if Only(s, test, 0) { assert forall j :: 0 <= j < |rest| ==> !test(rest[j]); }
      } else if at > 0 {
        if Only(rest, test, at - 1) { assert Only(s, test, at); }
        if Only(s, test, at) { assert forall j :: 0 <= j < |rest| && j != at - 1 ==> !test(rest[j]); }
      }
    }
  }

  lemma SecretMeans(s: Step, id: string, env: string, secret: string, remove: bool, index: Option<nat>)
    ensures var op := SetStepSecret(id, env, secret, remove, index);
            var r := EditSecret(s, id, env, secret, remove, index);
            (r.Ok? <==> Takes(op, s)) && (r.Ok? ==> StepBecomes(op, s, r.value.step))
  {
    CountMeans(s.secrets, BoundTo(env));
    NoMatch(s.secrets, BoundTo(env));
    var at := FirstAt(s.secrets, BoundTo(env));
    var k: nat := if at >= 0 then at else 0;
    if at >= 0 && CountOf(s.secrets, BoundTo(env)) <= 1 { assert Only(s.secrets, BoundTo(env), k); }
  }

  lemma CapabilityMeans(s: Step, id: string, capability: int, remove: bool, index: Option<nat>)
    ensures var op := SetStepCapability(id, capability, remove, index);
            var r := EditCapability(s, id, capability, remove, index);
            (r.Ok? <==> Takes(op, s)) && (r.Ok? ==> StepBecomes(op, s, r.value.step))
  {
    CountMeans(s.capabilities, EqualTo(capability));
    NoMatch(s.capabilities, EqualTo(capability));
    var at := FirstAt(s.capabilities, EqualTo(capability));
    var k: nat := if at >= 0 then at else 0;
    if at >= 0 && CountOf(s.capabilities, EqualTo(capability)) <= 1 {
      assert Only(s.capabilities, EqualTo(capability), k);
    }
  }

  /** An edit of one step is accepted exactly when it should be, and makes of the step exactly what it says. */
  lemma EditStepMeans(s: Step, op: Operation)
    requires OnStep(op)
    ensures EditStep(s, op).Ok? <==> Takes(op, s)
    ensures EditStep(s, op).Ok? ==> StepBecomes(op, s, EditStep(s, op).value.step)
  {
    match op
    case SetProperty(_, property, value) => PropertyMeans(s, property, value);
    case SetStepConfig(_, _, _, _) =>
    case SetStepSecret(id, env, secret, remove, index) => SecretMeans(s, id, env, secret, remove, index);
    case SetStepCapability(id, capability, remove, index) => CapabilityMeans(s, id, capability, remove, index);
    case Rename(_, _) =>
  }

  // ---- what each kind of edit makes of the definition --------------------------------------------

  /** The first step with this id. */
  predicate IsStep(p: Pipeline, id: string, i: nat) {
    i < |p.steps| && p.steps[i].id == id && forall j :: 0 <= j < i ==> p.steps[j].id != id
  }

  predicate IsFile(p: Pipeline, path: string, i: nat) {
    i < |p.files| && p.files[i].path == path && forall j :: 0 <= j < i ==> p.files[j].path != path
  }

  ghost predicate Sends(p: Pipeline, id: string, port: string) {
    exists i: nat :: IsStep(p, id, i) && HasPort(p.steps[i].outputs, port)
  }

  ghost predicate Receives(p: Pipeline, id: string, port: string) {
    exists i: nat :: IsStep(p, id, i) && HasPort(p.steps[i].inputs, port)
  }

  /** Which operations a definition accepts. */
  ghost predicate Accepts(p: Pipeline, op: Operation) {
    match op
    case AddStep(step) => step.id != "" && forall j :: 0 <= j < |p.steps| ==> p.steps[j].id != step.id
    case RemoveStep(id) =>
      (exists i: nat :: IsStep(p, id, i)) && forall e :: e in p.edges ==> e.fromStep != id && e.toStep != id
    case Connect(edge) =>
      && edge.Some? && edge.value !in p.edges
      && Sends(p, edge.value.fromStep, edge.value.fromPort) && Receives(p, edge.value.toStep, edge.value.toPort)
    case RemoveEdge(edge) => edge.Some? && edge.value in p.edges
    case SetFile(path, file) =>
      && path != ""
      && (file.None? ==>
            && (exists i: nat :: IsFile(p, path, i))
            && forall s, f :: s in p.steps && f in s.fileInputs ==> f.path != path)
    case _ => exists i: nat :: IsStep(p, op.stepId, i) && Takes(op, p.steps[i])
  }

  function OtherSteps(id: string): (r: Step -> seq<Step>) {
    (s: Step) => if s.id == id then [] else [s]
  }

  function OtherEdges(e: Edge): (r: Edge -> seq<Edge>) {
    (x: Edge) => if x == e then [] else [x]
  }

  ghost predicate FilesAfter(p: Pipeline, path: string, file: Option<File>, files: seq<File>) {
    if file.None? then exists i: nat :: IsFile(p, path, i) && files == p.files[..i] + p.files[i + 1..]
    else if exists i: nat :: IsFile(p, path, i) then
      exists i: nat :: IsFile(p, path, i) && files == p.files[i := file.value.(path := path)]
    else files == p.files + [file.value.(path := path)]
  }

  /** What an accepted operation leaves. */
  ghost predicate Leaves(p: Pipeline, op: Operation, q: Pipeline) {
    match op
    case AddStep(step) => q == p.(steps := p.steps + [step])
    case RemoveStep(id) => q == p.(steps := Collect(OtherSteps(id), p.steps))
    case Connect(edge) => edge.Some? && q == p.(edges := p.edges + [edge.value])
    case RemoveEdge(edge) => edge.Some? && q == p.(edges := Collect(OtherEdges(edge.value), p.edges))
    case SetFile(path, file) => q == p.(files := q.files) && FilesAfter(p, path, file, q.files)
    case _ =>
      exists i: nat, t :: IsStep(p, op.stepId, i) && StepBecomes(op, p.steps[i], t) && q == p.(steps := p.steps[i := t])
  }

  lemma StepIndexMeans(p: Pipeline, id: string)
    ensures StepIndex(p.steps, id) >= 0 ==> IsStep(p, id, StepIndex(p.steps, id))
    ensures forall i: nat :: IsStep(p, id, i) ==> i == StepIndex(p.steps, id)
  {
  }

  lemma FileIndexMeans(p: Pipeline, path: string)
    ensures FileIndex(p.files, path) >= 0 ==> IsFile(p, path, FileIndex(p.files, path))
    ensures forall i: nat :: IsFile(p, path, i) ==> i == FileIndex(p.files, path)
  {
  }

  lemma {:induction false} WithoutStepIs(steps: seq<Step>, id: string)
    ensures WithoutStep(steps, id) == Collect(OtherSteps(id), steps)
  {
    if steps != [] {
      WithoutStepIs(steps[1..], id);
      CollectHead(OtherSteps(id), steps);
    }
  }

  lemma {:induction false} WithoutEdgeIs(edges: seq<Edge>, e: Edge)
    ensures WithoutEdge(edges, e) == Collect(OtherEdges(e), edges)
  {
    if edges != [] {
      WithoutEdgeIs(edges[1..], e);
      CollectHead(OtherEdges(e), edges);
    }
  }

  lemma RemoveStepMeans(p: Pipeline, id: string)
    ensures ApplyRemoveStep(p, id).Ok? <==> Accepts(p, RemoveStep(id))
    ensures ApplyRemoveStep(p, id).Ok? ==> Leaves(p, RemoveStep(id), ApplyRemoveStep(p, id).value.pipeline)
    ensures ApplyRemoveStep(p, id) == Err(NoStep) <==> forall j :: 0 <= j < |p.steps| ==> p.steps[j].id != id
  {
    StepIndexMeans(p, id);
    WithoutStepIs(p.steps, id);
    if Connected(p, id) {
      var i :| 0 <= i < |p.edges| && (p.edges[i].fromStep == id || p.edges[i].toStep == id);
      assert p.edges[i] in p.edges;
    }
  }

  lemma ConnectMeans(p: Pipeline, edge: Option<Edge>)
    ensures ApplyConnect(p, edge).Ok? <==> Accepts(p, Connect(edge))
    ensures ApplyConnect(p, edge).Ok? ==> Leaves(p, Connect(edge), ApplyConnect(p, edge).value.pipeline)
    ensures ApplyConnect(p, edge) == Err(EdgeExists) <==>
            edge.Some? && edge.value in p.edges
            && Sends(p, edge.value.fromStep, edge.value.fromPort) && Receives(p, edge.value.toStep, edge.value.toPort)
  {
    if edge.Some? {
      StepIndexMeans(p, edge.value.fromStep);
      StepIndexMeans(p, edge.value.toStep);
    }
  }

  lemma RemoveEdgeMeans(p: Pipeline, edge: Option<Edge>)
    ensures ApplyRemoveEdge(p, edge).Ok? <==> Accepts(p, RemoveEdge(edge))
    ensures ApplyRemoveEdge(p, edge).Ok? ==> Leaves(p, RemoveEdge(edge), ApplyRemoveEdge(p, edge).value.pipeline)
  {
    if edge.Some? {
      WithoutEdgeIs(p.edges, edge.value);
    }
  }

  lemma BindsMeans(p: Pipeline, path: string)
    ensures Binds(p, path) <==> exists s, f :: s in p.steps && f in s.fileInputs && f.path == path
  {
    if Binds(p, path) {
      var i, j :| 0 <= i < |p.steps| && 0 <= j < |p.steps[i].fileInputs| && p.steps[i].fileInputs[j].path == path;
      assert p.steps[i] in p.steps && p.steps[i].fileInputs[j] in p.steps[i].fileInputs;
    }
    if s, f :| s in p.steps && f in s.fileInputs && f.path == path {
      var i :| 0 <= i < |p.steps| && p.steps[i] == s;
      var j :| 0 <= j < |s.fileInputs| && s.fileInputs[j] == f;
      assert p.steps[i].fileInputs[j].path == path;
    }
  }

  lemma SetFileMeans(p: Pipeline, path: string, file: Option<File>)
    ensures ApplySetFile(p, path, file).Ok? <==> Accepts(p, SetFile(path, file))
    ensures ApplySetFile(p, path, file).Ok? ==>
              Leaves(p, SetFile(path, file), ApplySetFile(p, path, file).value.pipeline)
  {
    FileIndexMeans(p, path);
    BindsMeans(p, path);
  }

  lemma OnStepMeans(p: Pipeline, op: Operation)
    requires OnStep(op)
    ensures ApplyOnStep(p, op).Ok? <==> Accepts(p, op)
    ensures ApplyOnStep(p, op).Ok? ==> Leaves(p, op, ApplyOnStep(p, op).value.pipeline)
  {
    StepIndexMeans(p, op.stepId);
    var i := StepIndex(p.steps, op.stepId);
    if i >= 0 {
      EditStepMeans(p.steps[i], op);
      if EditStep(p.steps[i], op).Ok? {
        var t := EditStep(p.steps[i], op).value.step;
        assert IsStep(p, op.stepId, i) && StepBecomes(op, p.steps[i], t);
      }
    }
  }

  /** An operation is accepted exactly when it should be, and leaves exactly what it says. */
  lemma ApplyMeans(p: Pipeline, op: Operation)
    ensures Apply(p, op).Ok? <==> Accepts(p, op)
    ensures Apply(p, op).Ok? ==> Leaves(p, op, Apply(p, op).value.pipeline)
  {
    match op
    case AddStep(_) =>
    case RemoveStep(id) => RemoveStepMeans(p, id);
    case Connect(edge) => ConnectMeans(p, edge);
    case RemoveEdge(edge) => RemoveEdgeMeans(p, edge);
    case SetFile(path, file) => SetFileMeans(p, path, file);
    case _ => OnStepMeans(p, op);
  }

  // ---- what is returned to undo it ----------------------------------------------------------------

  /** The operation that puts back what an edit of one step replaced. */
  ghost predicate PutsBack(op: Operation, s: Step, inverse: Operation)
    requires OnStep(op)
  {
    match op
    case SetProperty(id, property, _) =>
      && ValueIn(s, property).Some? && inverse.SetProperty?
      && inverse == SetProperty(id, property, inverse.value)
      && Kept(property, inverse.value, ValueIn(s, property).value)
    case SetStepConfig(id, key, _, _) =>
      inverse ==
        if key in s.config then SetStepConfig(id, key, s.config[key], false)
        else SetStepConfig(id, key, "", true)
    case SetStepSecret(id, env, _, remove, _) =>
      if NoneOf(s.secrets, BoundTo(env)) then inverse == SetStepSecret(id, env, "", true, None)
      else exists i: nat ::
             && Only(s.secrets, BoundTo(env), i)
             && inverse == SetStepSecret(id, env, s.secrets[i].name, false, if remove then Some(i) else None)
    case SetStepCapability(id, capability, remove, _) =>
      if remove then
        exists i: nat ::
          Only(s.capabilities, EqualTo(capability), i) && inverse == SetStepCapability(id, capability, false, Some(i))
      else inverse == SetStepCapability(id, capability, true, None)
    case Rename(id, _) => inverse == Rename(id, s.name)
  }

  lemma StepInverse(s: Step, op: Operation)
    requires OnStep(op) && EditStep(s, op).Ok?
    ensures PutsBack(op, s, EditStep(s, op).value.inverse)
  {
    match op
    case SetProperty(_, property, value) => PropertyMeans(s, property, value);
    case SetStepConfig(_, _, _, _) =>
    case SetStepSecret(_, env, _, _, _) =>
      CountMeans(s.secrets, BoundTo(env));
      NoMatch(s.secrets, BoundTo(env));
    case SetStepCapability(_, capability, _, _) =>
      CountMeans(s.capabilities, EqualTo(capability));
      NoMatch(s.capabilities, EqualTo(capability));
    case Rename(_, _) =>
  }

  ghost predicate BindsOnce(t: seq<StepSecret>, env: string, secret: string) {
    exists i: nat :: && i < |t| && t[i] == StepSecret(secret, env)
                     && forall j :: 0 <= j < |t| && j != i ==> t[j].env != env
  }

  /** After an accepted bind a step binds the variable once, to this secret; after an accepted removal, not at all. */
  lemma OneBinding(s: Step, id: string, env: string, secret: string, remove: bool, index: Option<nat>)
    requires EditSecret(s, id, env, secret, remove, index).Ok?
    ensures var t := EditSecret(s, id, env, secret, remove, index).value.step.secrets;
            if remove then forall x <- t :: x.env != env else BindsOnce(t, env, secret)
  {
    var t := EditSecret(s, id, env, secret, remove, index).value.step.secrets;
    SecretMeans(s, id, env, secret, remove, index);
    assert SecretsBecome(s.secrets, t, env, secret, remove, index);
    if !remove {
      if NoneOf(s.secrets, BoundTo(env)) {
        assert t[Place(s.secrets, index)] == StepSecret(secret, env);
      } else {
        var i: nat :| Only(s.secrets, BoundTo(env), i) && t == s.secrets[i := StepSecret(secret, env)];
        assert t[i] == StepSecret(secret, env);
      }
    }
  }

  /** The operation that puts back what an operation replaced. */
  ghost predicate Restores(p: Pipeline, op: Operation, inverse: Operation) {
    match op
    case AddStep(step) => inverse == RemoveStep(step.id)
    case RemoveStep(id) => exists i: nat :: IsStep(p, id, i) && inverse == AddStep(p.steps[i])
    case Connect(edge) => inverse == RemoveEdge(edge)
    case RemoveEdge(edge) => inverse == Connect(edge)
    case SetFile(path, _) =>
      if exists i: nat :: IsFile(p, path, i)
      then exists i: nat :: IsFile(p, path, i) && inverse == SetFile(path, Some(p.files[i]))
      else inverse == SetFile(path, None)
    case _ => exists i: nat :: IsStep(p, op.stepId, i) && PutsBack(op, p.steps[i], inverse)
  }

  lemma OnStepInverse(p: Pipeline, op: Operation)
    requires OnStep(op) && ApplyOnStep(p, op).Ok?
    ensures exists i: nat :: IsStep(p, op.stepId, i) && PutsBack(op, p.steps[i], ApplyOnStep(p, op).value.inverse)
  {
    StepIndexMeans(p, op.stepId);
    var i := StepIndex(p.steps, op.stepId);
    StepInverse(p.steps[i], op);
    assert IsStep(p, op.stepId, i);
  }

  /** What an accepted operation returns says what was there before it. */
  lemma InverseMeans(p: Pipeline, op: Operation)
    requires Apply(p, op).Ok?
    ensures Restores(p, op, Apply(p, op).value.inverse)
  {
    if OnStep(op) {
      OnStepInverse(p, op);
    } else if op.RemoveStep? {
      StepIndexMeans(p, op.stepId);
      assert IsStep(p, op.stepId, StepIndex(p.steps, op.stepId));
    } else if op.SetFile? {
      FileIndexMeans(p, op.path);
    }
  }

  // ---- why an operation is refused --------------------------------------------------------------

  ghost predicate Twice<T(!new)>(s: seq<T>, test: T -> bool) {
    !NoneOf(s, test) && forall i: nat :: !Only(s, test, i)
  }

  ghost predicate RefusesStep(op: Operation, s: Step, why: Refusal)
    requires OnStep(op)
  {
    match op
    case SetProperty(_, property, value) =>
      && !Readable(property, value)
      && why == if ValueIn(s, property).None? then UnknownProperty else BadValue
    case SetStepConfig(_, key, _, remove) =>
      if key == "" then why == KeyRequired else remove && key !in s.config && why == NoConfig
    case SetStepSecret(_, env, _, remove, index) =>
      if !IsEnvName(env) then why == NotEnvName
      else if Twice(s.secrets, BoundTo(env)) then why == Ambiguous
      else if NoneOf(s.secrets, BoundTo(env)) then
        if remove then why == NoSecret else index.Some? && index.value > |s.secrets| && why == IndexPastEnd
      else !remove && index.Some? && why == IndexOnRebind
    case SetStepCapability(_, capability, remove, index) =>
      if !(0 < capability < |CAPABILITIES|) then why == NotACapability
      else if Twice(s.capabilities, EqualTo(capability)) then why == Ambiguous
      else if NoneOf(s.capabilities, EqualTo(capability)) then
        if remove then why == NoCapability else index.Some? && index.value > |s.capabilities| && why == IndexPastEnd
      else !remove && why == CapabilityDeclared
    case Rename(_, _) => false
  }

  ghost predicate HasOne(p: Pipeline, id: string) {
    exists i: nat :: IsStep(p, id, i)
  }

  ghost predicate RefusesEdge(p: Pipeline, e: Edge, why: Refusal) {
    if !HasOne(p, e.fromStep) then why == NoStep
    else if !Sends(p, e.fromStep, e.fromPort) then why == NoPort
    else if !HasOne(p, e.toStep) then why == NoStep
    else if !Receives(p, e.toStep, e.toPort) then why == NoPort
    else e in p.edges && why == EdgeExists
  }

  ghost predicate Refuses(p: Pipeline, op: Operation, why: Refusal) {
    match op
    case AddStep(step) => if step.id == "" then why == StepIdRequired else HasOne(p, step.id) && why == StepExists
    case RemoveStep(id) =>
      if !HasOne(p, id) then why == NoStep
      else why == StillConnected && exists e :: e in p.edges && (e.fromStep == id || e.toStep == id)
    case Connect(edge) => if edge.None? then why == EdgeRequired else RefusesEdge(p, edge.value, why)
    case RemoveEdge(edge) =>
      if edge.None? then why == EdgeRequired else edge.value !in p.edges && why == NoEdge
    case SetFile(path, file) =>
      if path == "" then why == PathRequired
      else
        && file.None?
        && if !(exists i: nat :: IsFile(p, path, i)) then why == NoFile
           else why == StillRead && exists s, f :: s in p.steps && f in s.fileInputs && f.path == path
    case _ =>
      if !HasOne(p, op.stepId) then why == NoStep
      else exists i: nat :: IsStep(p, op.stepId, i) && RefusesStep(op, p.steps[i], why)
  }

  lemma ListRefusal<T(!new)>(s: seq<T>, test: T -> bool)
    ensures CountOf(s, test) > 1 <==> Twice(s, test)
    ensures FirstAt(s, test) < 0 <==> NoneOf(s, test)
  {
    CountMeans(s, test);
    NoMatch(s, test);
    if Twice(s, test) { assert FirstAt(s, test) >= 0; }
  }

  lemma PropertyRefusal(s: Step, id: string, property: string, value: string, why: Refusal)
    ensures EditProperty(s, id, property, value) == Err(why) <==> RefusesStep(SetProperty(id, property, value), s, why)
  {
    PropertyMeans(s, property, value);
    if property == "timeout_seconds" || property == "effect_class" || property == "lease_scope" {
      NumberMeans(s, property, value);
    }
  }

  lemma SecretRefusal(s: Step, id: string, env: string, secret: string, remove: bool, index: Option<nat>, why: Refusal)
    ensures EditSecret(s, id, env, secret, remove, index) == Err(why) <==>
            RefusesStep(SetStepSecret(id, env, secret, remove, index), s, why)
  {
    ListRefusal(s.secrets, BoundTo(env));
  }

  lemma CapabilityRefusal(s: Step, id: string, capability: int, remove: bool, index: Option<nat>, why: Refusal)
    ensures EditCapability(s, id, capability, remove, index) == Err(why) <==>
            RefusesStep(SetStepCapability(id, capability, remove, index), s, why)
  {
    ListRefusal(s.capabilities, EqualTo(capability));
  }

  lemma StepRefusal(s: Step, op: Operation, why: Refusal)
    requires OnStep(op)
    ensures EditStep(s, op) == Err(why) <==> RefusesStep(op, s, why)
  {
    match op
    case SetProperty(id, property, value) => PropertyRefusal(s, id, property, value, why);
    case SetStepConfig(_, _, _, _) =>
    case SetStepSecret(id, env, secret, remove, index) => SecretRefusal(s, id, env, secret, remove, index, why);
    case SetStepCapability(id, capability, remove, index) => CapabilityRefusal(s, id, capability, remove, index, why);
    case Rename(_, _) =>
  }

  lemma EdgeRefusal(p: Pipeline, e: Edge, why: Refusal)
    ensures ApplyConnect(p, Some(e)) == Err(why) <==> RefusesEdge(p, e, why)
  {
    StepIndexMeans(p, e.fromStep);
    StepIndexMeans(p, e.toStep);
    var i, j := StepIndex(p.steps, e.fromStep), StepIndex(p.steps, e.toStep);
    assert HasOne(p, e.fromStep) <==> i >= 0;
    assert HasOne(p, e.toStep) <==> j >= 0;
    assert Sends(p, e.fromStep, e.fromPort) <==> i >= 0 && HasPort(p.steps[i].outputs, e.fromPort);
    assert Receives(p, e.toStep, e.toPort) <==> j >= 0 && HasPort(p.steps[j].inputs, e.toPort);
  }

  lemma RemoveStepRefusal(p: Pipeline, id: string, why: Refusal)
    ensures ApplyRemoveStep(p, id) == Err(why) <==> Refuses(p, RemoveStep(id), why)
  {
    StepIndexMeans(p, id);
    if Connected(p, id) {
      var i :| 0 <= i < |p.edges| && (p.edges[i].fromStep == id || p.edges[i].toStep == id);
      assert p.edges[i] in p.edges;
    }
  }

  lemma SetFileRefusal(p: Pipeline, path: string, file: Option<File>, why: Refusal)
    ensures ApplySetFile(p, path, file) == Err(why) <==> Refuses(p, SetFile(path, file), why)
  {
    FileIndexMeans(p, path);
    BindsMeans(p, path);
  }

  lemma FirstRefuses(p: Pipeline, op: Operation, i: nat, edit: StepOutcome, why: Refusal)
    requires OnStep(op) && IsStep(p, op.stepId, i) && edit == EditStep(p.steps[i], op)
    ensures ApplyOnStep(p, op) == Err(why) <==> edit == Err(why)
  {
    StepIndexMeans(p, op.stepId);
  }

  lemma OnStepRefusal(p: Pipeline, op: Operation, why: Refusal)
    requires OnStep(op)
    ensures ApplyOnStep(p, op) == Err(why) <==>
            if !HasOne(p, op.stepId) then why == NoStep
            else exists i: nat :: IsStep(p, op.stepId, i) && RefusesStep(op, p.steps[i], why)
  {
    StepIndexMeans(p, op.stepId);
    if i: nat :| IsStep(p, op.stepId, i) {
      FirstRefuses(p, op, i, EditStep(p.steps[i], op), why);
      StepRefusal(p.steps[i], op, why);
    }
  }

  lemma OtherRefusal(p: Pipeline, op: Operation, why: Refusal)
    requires !OnStep(op)
    ensures Apply(p, op) == Err(why) <==> Refuses(p, op, why)
  {
    match op
    case AddStep(step) => StepIndexMeans(p, step.id);
    case RemoveStep(id) => RemoveStepRefusal(p, id, why);
    case Connect(edge) => if edge.Some? { EdgeRefusal(p, edge.value, why); }
    case RemoveEdge(_) =>
    case SetFile(path, file) => SetFileRefusal(p, path, file, why);
  }

  /** An operation is refused for exactly the first thing that is wrong with it. */
  lemma RefusalMeans(p: Pipeline, op: Operation, why: Refusal)
    ensures Apply(p, op) == Err(why) <==> Refuses(p, op, why)
  {
    if OnStep(op) {
      OnStepRefusal(p, op, why);
    } else {
      OtherRefusal(p, op, why);
    }
  }
}
