/**
 The part of the protoc descriptor tree the generator reads. Optional string
 fields are plain strings: an unset `package` or `go_package` reads as "",
 as the protobuf getters answer for an absent field.
 */
module Descriptor {

  datatype MethodDescriptor = MethodDescriptor(
    name: string,
    inputType: string,
    outputType: string,
    clientStreaming: bool,
    serverStreaming: bool)

  datatype ServiceDescriptor = ServiceDescriptor(
    name: string,
    methods: seq<MethodDescriptor>)

  /** One .proto file: its path, its `package` clause, its `go_package`
      option and its services in declaration order. */
  datatype FileDescriptor = FileDescriptor(
    name: string,
    package: string,
    goPackage: string,
    services: seq<ServiceDescriptor>)

  /** The fatal errors of a generation run. Each one ends the whole run. */
  datatype GenError =
    | MultipleSemicolons(goPackage: string)
    | MalformedSource(reason: string)

  /** The outcome of a step that can hit a fatal error; `:-` short-circuits
      on the first one, as the process exit does. */
  datatype Result<+T> = Success(value: T) | Failure(error: GenError) {

    predicate IsFailure() {
      Failure?
    }

    function PropagateFailure<U>(): Result<U>
      requires Failure?
    {
      Failure(error)
    }

    function Extract(): T
      requires Success?
    {
      value
    }
  }
}
