/**
 The generator's pipeline: the request's files flattened into one Params per
 service (parseRequest), then one output file per Params (generateResponse).
 The Go formatter is a parameter: it turns a rendered unit into formatted
 text or reports it malformed.
 */
module Plugin {
  import opened Descriptor
  import opened TemplateData
  import Naming
  import Template

  /** One file of the response. */
  datatype OutputFile = OutputFile(name: string, content: string)

  /** What the formatter answers for one rendered unit. */
  datatype FormatResult = Formatted(text: string) | Malformed(reason: string)

  /** The number of services over a list of files. */
  function ServiceCount(files: seq<FileDescriptor>): nat
  {
    if |files| == 0 then 0 else |files[0].services| + ServiceCount(files[1..])
  }

  /** Whether a file's go_package option can be resolved. */
  predicate Resolvable(fd: FileDescriptor)
  {
    multiset(fd.goPackage)[';'] <= 1
  }

  /** Whether every file that declares a service can be resolved. */
  predicate AllResolvable(files: seq<FileDescriptor>)
  {
    forall i :: 0 <= i < |files| && |files[i].services| > 0 ==> Resolvable(files[i])
  }

  /** What the entry for service `svc` of file `fd` holds besides the
      resolved names: the service, the file's names, and the service's
      methods in order, each tagged with the service's name and the file's
      proto package. */
  ghost predicate Describes(p: Params, fd: FileDescriptor, svc: ServiceDescriptor)
  {
    && p.service == svc
    && p.protoName == fd.name
    && p.packageName == fd.package
    && |p.methods| == |svc.methods|
    && forall k :: 0 <= k < |svc.methods| ==>
         && p.methods[k].desc == svc.methods[k]
         && p.methods[k].name == svc.methods[k].name
         && p.methods[k].serviceName == svc.name
         && p.methods[k].packageName == fd.package
  }

  /** The entry carries the file's resolved Go package name and file name. */
  ghost predicate NamedAs(p: Params, fd: FileDescriptor)
  {
    && Naming.GoPackageName(fd) == Success(p.goPackageName)
    && Naming.GoFileName(fd) == Success(p.goFileName)
  }

  /** The service's methods in order, each tagged with the service's name
      and the file's proto package. */
  function MethodsOf(fd: FileDescriptor, svc: ServiceDescriptor): (ms: seq<Method>)
    ensures |ms| == |svc.methods|
    ensures forall k :: 0 <= k < |ms| ==>
              && ms[k].desc == svc.methods[k] && ms[k].name == svc.methods[k].name
              && ms[k].serviceName == svc.name && ms[k].packageName == fd.package
  {
    seq(|svc.methods|, k requires 0 <= k < |svc.methods| =>
      Method(svc.methods[k].name, svc.methods[k], svc.name, fd.package))
  }

  /** The entry for one service, given its file's resolved names. */
  function Entry(fd: FileDescriptor, svc: ServiceDescriptor, goPackageName: string, goFileName: string): (p: Params)
    ensures Describes(p, fd, svc)
    ensures p.goPackageName == goPackageName && p.goFileName == goFileName
  {
    Params(svc, fd.name, fd.package, goPackageName, goFileName, MethodsOf(fd, svc))
  }

  lemma EntryDescribes(fd: FileDescriptor, svc: ServiceDescriptor)
    requires Resolvable(fd)
    ensures Naming.GoPackageName(fd).Success? && Naming.GoFileName(fd).Success?
    ensures Describes(Entry(fd, svc, Naming.GoPackageName(fd).value, Naming.GoFileName(fd).value), fd, svc)
    ensures NamedAs(Entry(fd, svc, Naming.GoPackageName(fd).value, Naming.GoFileName(fd).value), fd)
  {
  }

  /** The entries of one file: one per service, in order. The names are
      resolved only when the file has a service, so a file without services
      never fails. */
  function ParseFile(fd: FileDescriptor): (r: Result<seq<Params>>)
    ensures r.Failure? <==> |fd.services| > 0 && !Resolvable(fd)
    ensures r.Failure? ==> r.error == MultipleSemicolons(fd.goPackage)
    ensures r.Success? ==> |r.value| == |fd.services|
    ensures r.Success? ==> forall j :: 0 <= j < |fd.services| ==> Describes(r.value[j], fd, fd.services[j])
    ensures r.Success? ==> forall j :: 0 <= j < |fd.services| ==> NamedAs(r.value[j], fd)
  {
    if |fd.services| == 0 then Success([])
    else
      var goPackageName := Naming.GoPackageName(fd);
      if goPackageName.Failure? then Failure(goPackageName.error)
      else
        var goFileName := Naming.GoFileName(fd).value;
        var entries := seq(|fd.services|, j requires 0 <= j < |fd.services| =>
          Entry(fd, fd.services[j], goPackageName.value, goFileName));
        assert forall j :: 0 <= j < |fd.services| ==>
                 Describes(entries[j], fd, fd.services[j]) && NamedAs(entries[j], fd) by {
          forall j | 0 <= j < |fd.services|
            ensures Describes(entries[j], fd, fd.services[j]) && NamedAs(entries[j], fd)
          {
            EntryDescribes(fd, fd.services[j]);
          }
        }
        Success(entries)
  }

  /** Two steps of the run one after the other: the first failure wins,
      otherwise the entries are concatenated. */
  function Concat(first: Result<seq<Params>>, second: Result<seq<Params>>): Result<seq<Params>>
  {
    if first.Failure? then first
    else if second.Failure? then second
    else Success(first.value + second.value)
  }

  /** `parse` answers, for every file it accepts, one entry per service. */
  ghost predicate PerService(parse: FileDescriptor -> Result<seq<Params>>)
  {
    forall fd :: parse(fd).Success? ==> |parse(fd).value| == |fd.services|
  }

  /** `parse` run over the files in order: the first file it fails on ends
      the run, otherwise the entries of all files are concatenated. */
  function Gather(files: seq<FileDescriptor>, parse: FileDescriptor -> Result<seq<Params>>): (r: Result<seq<Params>>)
    ensures r.Success? <==> forall i :: 0 <= i < |files| ==> parse(files[i]).Success?
    ensures r.Failure? ==>
              exists i :: 0 <= i < |files| && parse(files[i]).Failure?
                && (forall k :: 0 <= k < i ==> parse(files[k]).Success?)
                && r.error == parse(files[i]).error
  {
    if |files| == 0 then Success([])
    else
      assert forall i :: 1 <= i < |files| ==> files[i] == files[1..][i - 1];
      var r := Concat(parse(files[0]), Gather(files[1..], parse));
      assert r.Failure? && parse(files[0]).Success? ==>
               exists i :: 1 <= i < |files| && parse(files[i]).Failure?
                 && (forall k :: 0 <= k < i ==> parse(files[k]).Success?)
                 && r.error == parse(files[i]).error;
      r
  }

  /** With one entry per service, the gathered entries number one per
      service of every file. */
  lemma {:induction false} GatherLength(files: seq<FileDescriptor>, parse: FileDescriptor -> Result<seq<Params>>)
    requires PerService(parse) && Gather(files, parse).Success?
    ensures |Gather(files, parse).value| == ServiceCount(files)
    decreases |files|
  {
    if |files| > 0 {
      GatherLength(files[1..], parse);
    }
  }

  /** The entries of file i sit in the gathered entries after the services
      of the files before it. */
  lemma {:induction false} GatherAt(files: seq<FileDescriptor>, parse: FileDescriptor -> Result<seq<Params>>, i: int, j: int)
    requires PerService(parse) && Gather(files, parse).Success?
    requires 0 <= i < |files| && 0 <= j < |files[i].services|
    ensures parse(files[i]).Success? && j < |parse(files[i]).value|
    ensures ServiceCount(files[..i]) + j < |Gather(files, parse).value|
    ensures Gather(files, parse).value[ServiceCount(files[..i]) + j] == parse(files[i]).value[j]
    decreases i
  {
    var first := parse(files[0]);
    var later := Gather(files[1..], parse);
    var all := Gather(files, parse).value;
    assert all == first.value + later.value;
    GatherLength(files, parse);
    if i == 0 {
      assert files[..0] == [];
    } else {
      assert files[1..][i - 1] == files[i];
      GatherAt(files[1..], parse, i - 1, j);
      assert files[..i][0] == files[0] && files[..i][1..] == files[1..][..i - 1];
      assert ServiceCount(files[..i]) == |first.value| + ServiceCount(files[1..][..i - 1]);
    }
  }

  /** A file that `parse` turns into no entries changes nothing. */
  lemma {:induction false} GatherSkip(before: seq<FileDescriptor>, fd: FileDescriptor, after: seq<FileDescriptor>,
                                      parse: FileDescriptor -> Result<seq<Params>>)
    requires parse(fd) == Success([])
    ensures Gather(before + [fd] + after, parse) == Gather(before + after, parse)
    decreases |before|
  {
    var all := before + [fd] + after;
    var short := before + after;
    if |before| == 0 {
      assert all[0] == fd && all[1..] == after && short == after;
      var rest := Gather(after, parse);
      if rest.Success? {
        assert [] + rest.value == rest.value;
      }
    } else {
      assert all[0] == before[0] && all[1..] == before[1..] + [fd] + after;
      assert short[0] == before[0] && short[1..] == before[1..] + after;
      GatherSkip(before[1..], fd, after, parse);
    }
  }

  lemma ParseFilePerService()
    ensures PerService(ParseFile)
  {
    forall fd | ParseFile(fd).Success?
      ensures |ParseFile(fd).value| == |fd.services|
    {
    }
  }

  /** parseRequest: every file's entries, file after file. The first file
      with a service whose go_package cannot be resolved ends the run. */
  function ParseRequest(files: seq<FileDescriptor>): (r: Result<seq<Params>>)
    ensures r.Success? <==> AllResolvable(files)
    ensures r.Success? ==> |r.value| == ServiceCount(files)
    ensures r.Failure? ==>
              exists i :: 0 <= i < |files| && |files[i].services| > 0 && !Resolvable(files[i])
                && (forall k :: 0 <= k < i && |files[k].services| > 0 ==> Resolvable(files[k]))
                && r.error == MultipleSemicolons(files[i].goPackage)
  {
    var r := Gather(files, ParseFile);
    if r.Success? then
      ParseFilePerService();
      GatherLength(files, ParseFile);
      r
    else r
  }

  /** The request's entry for service j of file i is the file's own entry j,
      placed after the services of the files before it. */
  lemma ParseRequestAt(files: seq<FileDescriptor>, i: int, j: int)
    requires AllResolvable(files)
    requires 0 <= i < |files| && 0 <= j < |files[i].services|
    ensures ParseRequest(files).Success?
    ensures ParseFile(files[i]).Success? && j < |ParseFile(files[i]).value|
    ensures ServiceCount(files[..i]) + j < |ParseRequest(files).value|
    ensures ParseRequest(files).value[ServiceCount(files[..i]) + j] == ParseFile(files[i]).value[j]
  {
    assert ParseRequest(files) == Gather(files, ParseFile);
    ParseFilePerService();
    GatherAt(files, ParseFile, i, j);
  }

  /** Every entry `parse` gives describes its service. */
  ghost predicate AllDescribe(parse: FileDescriptor -> Result<seq<Params>>)
  {
    forall fd, k :: parse(fd).Success? && 0 <= k < |fd.services| && k < |parse(fd).value| ==>
      Describes(parse(fd).value[k], fd, fd.services[k])
  }

  lemma ParseFileDescribes()
    ensures AllDescribe(ParseFile)
  {
    forall fd, k | ParseFile(fd).Success? && 0 <= k < |fd.services| && k < |ParseFile(fd).value|
      ensures Describes(ParseFile(fd).value[k], fd, fd.services[k])
    {
    }
  }

  /** The gathered entry for service j of file i describes that service. */
  lemma GatherDescribes(files: seq<FileDescriptor>, parse: FileDescriptor -> Result<seq<Params>>, i: int, j: int)
    requires PerService(parse) && AllDescribe(parse) && Gather(files, parse).Success?
    requires 0 <= i < |files| && 0 <= j < |files[i].services|
    ensures ServiceCount(files[..i]) + j < |Gather(files, parse).value|
    ensures Describes(Gather(files, parse).value[ServiceCount(files[..i]) + j], files[i], files[i].services[j])
  {
    GatherAt(files, parse, i, j);
  }

  /** The entry for service j of file i sits after the services of the
      files before it, and describes that service. */
  lemma ParseRequestEntry(files: seq<FileDescriptor>, i: int, j: int)
    requires AllResolvable(files)
    requires 0 <= i < |files| && 0 <= j < |files[i].services|
    ensures ParseRequest(files).Success?
    ensures ServiceCount(files[..i]) + j < |ParseRequest(files).value|
    ensures Describes(ParseRequest(files).value[ServiceCount(files[..i]) + j], files[i], files[i].services[j])
  {
    assert ParseRequest(files) == Gather(files, ParseFile);
    ParseFilePerService();
    ParseFileDescribes();
    GatherDescribes(files, ParseFile, i, j);
  }

  /** A file without services contributes nothing, whatever its options. */
  lemma ServicelessFileIgnored(before: seq<FileDescriptor>, fd: FileDescriptor, after: seq<FileDescriptor>)
    requires |fd.services| == 0
    ensures ParseRequest(before + [fd] + after) == ParseRequest(before + after)
  {
    assert ParseFile(fd) == Success([]);
    GatherSkip(before, fd, after, ParseFile);
  }

  /** generateResponse: one output file per entry, in order, named by the
      entry's Go file name and holding the formatted rendering; the first
      rendering the formatter rejects ends the run. */
  function GenerateResponse(ps: seq<Params>, gofmt: Template.Unit -> FormatResult): (r: Result<seq<OutputFile>>)
    ensures r.Success? <==> forall i :: 0 <= i < |ps| ==> gofmt(Template.Render(ps[i])).Formatted?
    ensures r.Success? ==> |r.value| == |ps|
    ensures r.Success? ==> forall i :: 0 <= i < |ps| ==>
              r.value[i] == OutputFile(ps[i].goFileName, gofmt(Template.Render(ps[i])).text)
    ensures r.Failure? ==>
              exists i :: 0 <= i < |ps| && gofmt(Template.Render(ps[i])).Malformed?
                && (forall k :: 0 <= k < i ==> gofmt(Template.Render(ps[k])).Formatted?)
                && r.error == MalformedSource(gofmt(Template.Render(ps[i])).reason)
  {
    if |ps| == 0 then Success([])
    else
      match gofmt(Template.Render(ps[0]))
      case Malformed(reason) => Failure(MalformedSource(reason))
      case Formatted(text) =>
        var rest :- GenerateResponse(ps[1..], gofmt);
        assert forall i :: 1 <= i < |ps| ==> ps[i] == ps[1..][i - 1];
        Success([OutputFile(ps[0].goFileName, text)] + rest)
  }

  /** The whole run: flatten the request, then generate every file. */
  function Run(files: seq<FileDescriptor>, gofmt: Template.Unit -> FormatResult): (r: Result<seq<OutputFile>>)
    ensures (exists i :: 0 <= i < |files| && |files[i].services| > 0 && !Resolvable(files[i])) ==>
              r.Failure? && r.error.MultipleSemicolons?
    ensures r.Success? ==> |r.value| == ServiceCount(files)
  {
    var ps :- ParseRequest(files);
    GenerateResponse(ps, gofmt)
  }

  /** Every output file of a successful run is named by the Go file name of
      the .proto file that declares its service, so two services of one file
      give two outputs with the same name. */
  lemma RunOutputName(files: seq<FileDescriptor>, gofmt: Template.Unit -> FormatResult, i: int, j: int)
    requires Run(files, gofmt).Success?
    requires 0 <= i < |files| && 0 <= j < |files[i].services|
    ensures ServiceCount(files[..i]) + j < |Run(files, gofmt).value|
    ensures Naming.GoFileName(files[i]) == Success(Run(files, gofmt).value[ServiceCount(files[..i]) + j].name)
  {
    var ps := ParseRequest(files).value;
    assert Run(files, gofmt) == GenerateResponse(ps, gofmt);
    var n := ServiceCount(files[..i]) + j;
    EntryNames(files, i, j);
    assert Run(files, gofmt).value[n].name == ps[n].goFileName;
  }

  /** The entry for service j of file i carries file i's resolved names. */
  lemma EntryNames(files: seq<FileDescriptor>, i: int, j: int)
    requires AllResolvable(files)
    requires 0 <= i < |files| && 0 <= j < |files[i].services|
    ensures ParseRequest(files).Success?
    ensures ServiceCount(files[..i]) + j < |ParseRequest(files).value|
    ensures var p := ParseRequest(files).value[ServiceCount(files[..i]) + j];
            && Naming.GoPackageName(files[i]) == Success(p.goPackageName)
            && Naming.GoFileName(files[i]) == Success(p.goFileName)
  {
    ParseRequestAt(files, i, j);
    ParsedNames(files[i], j);
  }

  lemma ParsedNames(fd: FileDescriptor, j: int)
    requires Resolvable(fd) && 0 <= j < |fd.services|
    ensures ParseFile(fd).Success? && j < |ParseFile(fd).value|
    ensures Naming.GoPackageName(fd) == Success(ParseFile(fd).value[j].goPackageName)
    ensures Naming.GoFileName(fd) == Success(ParseFile(fd).value[j].goFileName)
  {
    assert NamedAs(ParseFile(fd).value[j], fd);
  }
}
