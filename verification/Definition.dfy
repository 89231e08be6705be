/**
 A pipeline definition: steps with typed ports, edges from port to port, and
 files carried along. Enum fields are the numbers the wire carries, so a
 value no build declares is representable.
 */
module Definition {

  type uint32 = n: int | 0 <= n < 0x1_0000_0000

  datatype Digest = Digest(algo: string, hex: string)
  datatype PortType = Untyped | Blob(mediaType: string) | Structured(schemaId: string, schema: string)
  datatype Port = Port(name: string, portType: PortType)
  datatype FileInput = FileInput(port: string, path: string)
  datatype StepSecret = StepSecret(name: string, env: string)
  datatype File = File(path: string, digest: Digest, sizeBytes: nat, mediaType: string)
  datatype Edge = Edge(fromStep: string, fromPort: string, toStep: string, toPort: string)

  datatype Step = Step(
    id: string, name: string, pluginRef: string, effectClass: int, inputs: seq<Port>, outputs: seq<Port>,
    capabilities: seq<int>, leaseScope: int, config: map<string, string>, image: string, engineType: string,
    timeoutSeconds: uint32, fileInputs: seq<FileInput>, secrets: seq<StepSecret>)

  datatype Pipeline = Pipeline(id: string, tenant: string, steps: seq<Step>, edges: seq<Edge>, files: seq<File>)

  /** The first step with this id, as an index, or -1. */
  function StepIndex(steps: seq<Step>, id: string): (r: int)
    ensures -1 <= r < |steps|
    ensures r >= 0 ==> steps[r].id == id
    ensures forall i :: 0 <= i < (if r < 0 then |steps| else r) ==> steps[i].id != id
  {
    if steps == [] then -1
    else if steps[0].id == id then 0
    else var r := StepIndex(steps[1..], id); if r < 0 then -1 else r + 1
  }

  /** The steps by id; of two steps with one id, the later. */
  function ById(steps: seq<Step>): (r: map<string, Step>) {
    if steps == [] then map[] else ById(steps[..|steps| - 1])[steps[|steps| - 1].id := steps[|steps| - 1]]
  }

  /** The first file at this path, as an index, or -1. */
  function FileIndex(files: seq<File>, path: string): (r: int)
    ensures -1 <= r < |files|
    ensures r >= 0 ==> files[r].path == path
    ensures forall i :: 0 <= i < (if r < 0 then |files| else r) ==> files[i].path != path
  {
    if files == [] then -1
    else if files[0].path == path then 0
    else var r := FileIndex(files[1..], path); if r < 0 then -1 else r + 1
  }

  predicate HasPort(ports: seq<Port>, name: string) {
    exists i :: 0 <= i < |ports| && ports[i].name == name
  }

  /** Some step reads the file at this path. */
  predicate Binds(p: Pipeline, path: string) {
    exists i, j :: 0 <= i < |p.steps| && 0 <= j < |p.steps[i].fileInputs| && p.steps[i].fileInputs[j].path == path
  }

  /** Some edge names this step. */
  predicate Connected(p: Pipeline, id: string) {
    exists i :: 0 <= i < |p.edges| && (p.edges[i].fromStep == id || p.edges[i].toStep == id)
  }
}
