/**
 The shape of the Go source the template renders for one service, as
 declarations rather than text: the `<Service>Assembly` struct with one
 callback field per method, one forwarding method per method, `Register`,
 and the constructor that fills every field with an "unimplemented" stub.
 */
module Template {
  import opened Descriptor
  import opened TemplateData

  /** The four RPC interaction shapes. */
  datatype Shape = Unary | ServerStreaming | ClientStreaming | BidiStreaming

  /** The shape named by a method's two streaming flags. */
  function Classify(clientStreaming: bool, serverStreaming: bool): (shape: Shape)
    ensures Flags(shape) == (clientStreaming, serverStreaming)
  {
    if clientStreaming && serverStreaming then BidiStreaming
    else if clientStreaming then ClientStreaming
    else if serverStreaming then ServerStreaming
    else Unary
  }

  /** The streaming flags (client, server) of a shape. */
  function Flags(s: Shape): (bool, bool)
  {
    match s
    case Unary => (false, false)
    case ServerStreaming => (false, true)
    case ClientStreaming => (true, false)
    case BidiStreaming => (true, true)
  }

  /** Classification is a bijection between flag pairs and shapes. */
  lemma ClassifyFlagsInverse(c: bool, s: bool, shape: Shape)
    ensures Flags(Classify(c, s)) == (c, s)
    ensures Classify(Flags(shape).0, Flags(shape).1) == shape
  {
  }

  /** The Go signature of a method's callback field, forwarder and stub. */
  datatype Signature =
      /** func(stream S) error */
    | StreamOnly(stream: string)
      /** func(input *In, stream S) error */
    | InputAndStream(input: string, stream: string)
      /** func(ctx context.Context, input *In) (*Out, error) */
    | ContextAndInput(input: string, output: string)

  /** A parameter of a signature, by role. */
  datatype Argument = Ctx | Input | Stream

  /** The parameters of a signature, in order. */
  function Arguments(sig: Signature): seq<Argument>
  {
    match sig
    case StreamOnly(_) => [Stream]
    case InputAndStream(_, _) => [Input, Stream]
    case ContextAndInput(_, _) => [Ctx, Input]
  }

  /** The signature the template writes for a method: the client-streaming
      flag wins (both of its branches write the same stream-only signature),
      then the server-streaming flag. */
  function SignatureOf(m: Method): (sig: Signature)
    ensures sig.StreamOnly? <==> m.desc.clientStreaming
    ensures sig.InputAndStream? <==> !m.desc.clientStreaming && m.desc.serverStreaming
    ensures sig.ContextAndInput? <==> !m.desc.clientStreaming && !m.desc.serverStreaming
    ensures !sig.ContextAndInput? ==> sig.stream == StreamName(m)
    ensures !sig.StreamOnly? ==> sig.input == TrimmedInput(m)
    ensures sig.ContextAndInput? ==> sig.output == TrimmedOutput(m)
  {
    if m.desc.clientStreaming then
      if m.desc.serverStreaming then StreamOnly(StreamName(m))
      else StreamOnly(StreamName(m))
    else if m.desc.serverStreaming then InputAndStream(TrimmedInput(m), StreamName(m))
    else ContextAndInput(TrimmedInput(m), TrimmedOutput(m))
  }

  /** The signature of each of the four shapes, as the interaction shapes
      are described: unary calls take a context and the input and return the
      output; server streaming takes the input and a stream; client and
      bidirectional streaming take only a stream. */
  function ShapeSignature(shape: Shape, m: Method): Signature
  {
    match shape
    case Unary => ContextAndInput(TrimmedInput(m), TrimmedOutput(m))
    case ServerStreaming => InputAndStream(TrimmedInput(m), StreamName(m))
    case ClientStreaming => StreamOnly(StreamName(m))
    case BidiStreaming => StreamOnly(StreamName(m))
  }

  /** The template's nested flag tests agree with the shape table. */
  lemma SignatureFollowsShape(m: Method)
    ensures SignatureOf(m) == ShapeSignature(Classify(m.desc.clientStreaming, m.desc.serverStreaming), m)
  {
  }

  /** Only a unary method returns a reply value; every streaming shape
      returns just an error. */
  lemma OnlyUnaryReturnsReply(m: Method)
    ensures SignatureOf(m).ContextAndInput? <==> Classify(m.desc.clientStreaming, m.desc.serverStreaming) == Unary
    ensures Ctx in Arguments(SignatureOf(m)) <==> Classify(m.desc.clientStreaming, m.desc.serverStreaming) == Unary
    ensures Stream in Arguments(SignatureOf(m)) <==> Classify(m.desc.clientStreaming, m.desc.serverStreaming) != Unary
  {
  }

  const TypeSuffix := "Assembly"
  const MethodSuffix := "Method"

  /** The gRPC status code the default stubs return. */
  datatype Code = Unimplemented

  /** `<Name>Method func(...)`: the callback field of the struct. */
  datatype Field = Field(name: string, sig: Signature)

  /** `func (t *<Type>) <Name>(args) ... { return t.<callee>(args) }`. */
  datatype Forwarder = Forwarder(receiver: string, name: string, sig: Signature, callee: string, args: seq<Argument>)

  /** `t.<field> = func(...) ... { return [nil,] status.Errorf(code, message) }`. */
  datatype Stub = Stub(field: string, sig: Signature, nilReply: bool, code: Code, message: string)

  /** One rendered source file, before formatting. */
  datatype Unit = Unit(
    packageName: string,
    typeName: string,
    fields: seq<Field>,
    forwarders: seq<Forwarder>,
    registerFunc: string,
    constructorName: string,
    stubs: seq<Stub>)

  /** The callback field of a method: named after the RPC, typed by the
      signature of the method's shape. */
  function FieldOf(m: Method): (f: Field)
    ensures f.name == m.name + MethodSuffix
    ensures f.sig == ShapeSignature(Classify(m.desc.clientStreaming, m.desc.serverStreaming), m)
  {
    Field(m.name + MethodSuffix, SignatureOf(m))
  }

  /** The forwarding method of a method: a method of the struct named after
      the RPC that calls the method's callback field with its own
      parameters. */
  function ForwarderOf(typeName: string, m: Method): (fw: Forwarder)
    ensures fw.receiver == typeName && fw.name == m.name
    ensures fw.callee == FieldOf(m).name && fw.sig == FieldOf(m).sig
    ensures fw.args == Arguments(FieldOf(m).sig)
  {
    var sig := SignatureOf(m);
    Forwarder(typeName, m.name, sig, m.name + MethodSuffix, Arguments(sig))
  }

  /** The default stub of a method: fills the method's callback field with
      a function of the same signature that fails with Unimplemented,
      returning a nil reply only where the signature has one. */
  function StubOf(m: Method): (s: Stub)
    ensures s.field == FieldOf(m).name && s.sig == FieldOf(m).sig
    ensures s.code == Unimplemented && s.message == m.name + " has not been implemented"
    ensures s.nilReply <==> Classify(m.desc.clientStreaming, m.desc.serverStreaming) == Unary
  {
    var sig := SignatureOf(m);
    Stub(m.name + MethodSuffix, sig, sig.ContextAndInput?, Unimplemented, m.name + " has not been implemented")
  }

  /** The template for one service. */
  function Render(p: Params): (u: Unit)
    ensures u.packageName == p.goPackageName
    ensures u.typeName == p.service.name + TypeSuffix
    ensures u.registerFunc == "Register" + p.service.name + "Server"
    ensures u.constructorName == "New" + p.service.name + TypeSuffix
    ensures |u.fields| == |u.forwarders| == |u.stubs| == |p.methods|
    ensures forall i :: 0 <= i < |p.methods| ==> u.fields[i] == FieldOf(p.methods[i])
    ensures forall i :: 0 <= i < |p.methods| ==> u.forwarders[i] == ForwarderOf(u.typeName, p.methods[i])
    ensures forall i :: 0 <= i < |p.methods| ==> u.stubs[i] == StubOf(p.methods[i])
  {
    var typeName := p.service.name + TypeSuffix;
    Unit(
      p.goPackageName,
      typeName,
      seq(|p.methods|, i requires 0 <= i < |p.methods| => FieldOf(p.methods[i])),
      seq(|p.methods|, i requires 0 <= i < |p.methods| => ForwarderOf(typeName, p.methods[i])),
      "Register" + p.service.name + "Server",
      "New" + typeName,
      seq(|p.methods|, i requires 0 <= i < |p.methods| => StubOf(p.methods[i])))
  }

  /** What the three declarations of one method promise together: the
      forwarder is a method of the struct named after the RPC that calls the
      callback field with exactly its own parameters, and the default stub
      fills that field with the same signature and fails with Unimplemented,
      returning a nil reply only where the signature has one. */
  ghost predicate Consistent(typeName: string, m: Method, f: Field, fw: Forwarder, s: Stub)
  {
    && f.name == m.name + MethodSuffix
    && fw.receiver == typeName && fw.name == m.name
    && fw.callee == f.name && fw.sig == f.sig && fw.args == Arguments(f.sig)
    && s.field == f.name && s.sig == f.sig
    && s.code == Unimplemented && s.message == m.name + " has not been implemented"
    && (s.nilReply <==> Classify(m.desc.clientStreaming, m.desc.serverStreaming) == Unary)
  }

  /** Every method of a rendered service gets a consistent field, forwarder
      and stub, in the order of the methods. */
  lemma RenderConsistent(p: Params, i: int)
    requires 0 <= i < |p.methods|
    ensures var u := Render(p);
            Consistent(u.typeName, p.methods[i], u.fields[i], u.forwarders[i], u.stubs[i])
  {
    OnlyUnaryReturnsReply(p.methods[i]);
  }
}
