/**
 The records the template reads: one `Params` per service and one `Method`
 per RPC method, with the helpers the template calls on a method.
 */
module TemplateData {
  import Strings
  import opened Descriptor

  /** A method as the template sees it: its descriptor, plus the name of the
      service that declares it and the proto `package` clause of its file. */
  datatype Method = Method(
    name: string,
    desc: MethodDescriptor,
    serviceName: string,
    packageName: string)

  /** Everything the template reads about one service. */
  datatype Params = Params(
    service: ServiceDescriptor,
    protoName: string,
    packageName: string,
    goPackageName: string,
    goFileName: string,
    methods: seq<Method>)

  /** The qualifier protoc writes in front of a type of package `pkg`. */
  function QualifierPrefix(pkg: string): string
  {
    "." + pkg + "."
  }

  /** TrimmedInput: the input type without the `.<package>.` qualifier of
      the method's own proto package; any other type reference is kept
      whole. */
  function TrimmedInput(m: Method): (r: string)
    ensures QualifierPrefix(m.packageName) <= m.desc.inputType ==>
              QualifierPrefix(m.packageName) + r == m.desc.inputType
    ensures !(QualifierPrefix(m.packageName) <= m.desc.inputType) ==> r == m.desc.inputType
  {
    Strings.TrimPrefix(m.desc.inputType, QualifierPrefix(m.packageName))
  }

  /** TrimmedOutput: the same trimming for the output type. */
  function TrimmedOutput(m: Method): (r: string)
    ensures QualifierPrefix(m.packageName) <= m.desc.outputType ==>
              QualifierPrefix(m.packageName) + r == m.desc.outputType
    ensures !(QualifierPrefix(m.packageName) <= m.desc.outputType) ==> r == m.desc.outputType
  {
    Strings.TrimPrefix(m.desc.outputType, QualifierPrefix(m.packageName))
  }

  /** A type of a different single-segment package keeps its qualifier. */
  lemma ForeignTypeKept(m: Method, other: string, name: string)
    requires m.desc.inputType == QualifierPrefix(other) + name
    requires '.' !in other && '.' !in m.packageName && other != m.packageName
    ensures TrimmedInput(m) == m.desc.inputType
  {
    var t, pkg := m.desc.inputType, m.packageName;
    var pre := QualifierPrefix(pkg);
    assert forall k :: 0 <= k < |other| ==> t[k + 1] == other[k];
    assert t[|other| + 1] == '.';
    assert forall k :: 0 <= k < |pkg| ==> pre[k + 1] == pkg[k];
    assert pre[|pkg| + 1] == '.';
  }

  /** With an empty package clause the prefix is "..", so a top-level type
      such as ".Foo" is not trimmed. */
  lemma EmptyPackageTrimsNothing(m: Method)
    requires m.packageName == ""
    requires |m.desc.inputType| >= 2 && m.desc.inputType[1] != '.'
    ensures TrimmedInput(m) == m.desc.inputType
  {
    assert QualifierPrefix("") == "..";
  }

  /** A type of a nested package is trimmed only of the outer package:
      with package "a", ".a.b.Foo" becomes "b.Foo". */
  lemma NestedPackagePartlyTrimmed(m: Method, inner: string, name: string)
    requires m.desc.inputType == QualifierPrefix(m.packageName) + inner + "." + name
    ensures TrimmedInput(m) == inner + "." + name
  {
  }

  /** StreamName: the name of the stream handle type of a streaming method,
      `<Service>_<Method>Server`. */
  function StreamName(m: Method): (r: string)
    ensures |r| == |m.serviceName| + 1 + |m.desc.name| + |ServerSuffix|
    ensures r[..|m.serviceName|] == m.serviceName && r[|m.serviceName|] == '_'
    ensures r[|m.serviceName| + 1..|r| - |ServerSuffix|] == m.desc.name
    ensures r[|r| - |ServerSuffix|..] == ServerSuffix
  {
    m.serviceName + "_" + m.desc.name + ServerSuffix
  }

  const ServerSuffix := "Server"

  /** How a stream handle name splits back into a service and a method. */
  datatype StreamParts = StreamParts(service: string, rpc: string) | NotAStreamName

  /** The inverse of StreamName for services whose name has no `_`: the
      service is the text before the first `_`, the method the text between
      it and the trailing "Server". */
  function SplitStreamName(s: string): StreamParts
  {
    var i := Strings.IndexOf(s, '_');
    if 0 <= i && i + 1 + |ServerSuffix| <= |s| && s[|s| - |ServerSuffix|..] == ServerSuffix then
      StreamParts(s[..i], s[i + 1..|s| - |ServerSuffix|])
    else
      NotAStreamName
  }

  /** For a service name without `_`, the stream handle name gives back the
      service and the method. */
  lemma StreamNameRoundTrip(m: Method)
    requires '_' !in m.serviceName
    ensures SplitStreamName(StreamName(m)) == StreamParts(m.serviceName, m.desc.name)
  {
    var s := StreamName(m);
    var svc := m.serviceName;
    assert s[|svc|] == '_' && s[..|svc|] == svc;
    Strings.IndexOfUnique(s, '_', |svc|);
    assert s[|s| - |ServerSuffix|..] == ServerSuffix;
    assert s[|svc| + 1..|s| - |ServerSuffix|] == m.desc.name;
  }

  /** No collision detection: a service "A_B" with method "C" and a service
      "A" with method "B_C" get the same stream handle name. */
  lemma StreamNamesCollide()
    ensures StreamName(Method("C", MethodDescriptor("C", ".p.In", ".p.Out", true, true), "A_B", "p"))
         == StreamName(Method("B_C", MethodDescriptor("B_C", ".p.In", ".p.Out", true, true), "A", "p"))
  {
  }
}
