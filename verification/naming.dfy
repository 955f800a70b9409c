/**
 The name resolver: from one .proto file's descriptor to the Go package name
 and the output file name of the code generated for it.
 */
module Naming {
  import Strings
  import Paths
  import opened Descriptor

  /** The go_package option read through its first `;`: the text before it,
      or a fatal error when there are two or more. */
  function GetGoPackage(fd: FileDescriptor): (r: Result<string>)
    ensures r.Failure? <==> multiset(fd.goPackage)[';'] > 1
    ensures r.Failure? ==> r.error == MultipleSemicolons(fd.goPackage)
    ensures r.Success? ==> r.value <= fd.goPackage && ';' !in r.value
    ensures r.Success? && |r.value| < |fd.goPackage| ==> fd.goPackage[|r.value|] == ';'
  {
    var pkg := fd.goPackage;
    if ';' in pkg then
      var parts := Strings.Split(pkg, ';');
      if |parts| > 2 then
        Failure(MultipleSemicolons(pkg))
      else
        Strings.SplitHead(pkg, ';');
        Success(parts[0])
    else
      Success(pkg)
  }

  /** What a go_package option says: an import path (empty when the option
      gives none), a package name, and whether the option was present. */
  datatype PackageOption = PackageOption(importPath: string, pkg: string, ok: bool)

  /** The interpretation of a go_package text: a bare name is the package;
      with a slash the whole text is the import path and the package is its
      last element; a `;` in a text with a slash separates the import path
      from an explicit package name. */
  function InterpretGoPackage(opt: string): (r: PackageOption)
    ensures r.ok <==> opt != ""
    ensures opt == "" ==> r.importPath == "" && r.pkg == ""
    ensures opt != "" && '/' !in opt ==> r.importPath == "" && r.pkg == opt
    ensures '/' in opt && ';' !in opt ==> r.importPath == opt && Paths.IsLastElement(opt, r.pkg)
    ensures '/' in opt && ';' in opt ==> r.importPath + ";" + r.pkg == opt && ';' !in r.importPath
  {
    if opt == "" then PackageOption("", "", false)
    else
      var slash := Strings.LastIndexOf(opt, '/');
      if slash < 0 then PackageOption("", opt, true)
      else
        var impPath, pkg := opt, opt[slash + 1..];
        var sc := Strings.IndexOf(impPath, ';');
        if sc < 0 then PackageOption(impPath, pkg, true)
        else
          assert impPath == impPath[..sc] + ";" + impPath[sc + 1..];
          PackageOption(impPath[..sc], impPath[sc + 1..], true)
  }

  /** goPackageOption: the go_package option, truncated at its first `;`,
      then interpreted. */
  function GoPackageOption(fd: FileDescriptor): (r: Result<PackageOption>)
    ensures r.Failure? <==> multiset(fd.goPackage)[';'] > 1
    ensures r.Failure? ==> r.error == MultipleSemicolons(fd.goPackage)
    ensures r.Success? ==> r.value == InterpretGoPackage(GetGoPackage(fd).value)
  {
    var opt :- GetGoPackage(fd);
    Success(InterpretGoPackage(opt))
  }

  /** Because the option is truncated at its first `;` before it is
      interpreted, the `;` override is never taken: the import path is the
      whole truncated text (or empty) and the package is its last element. */
  lemma SemicolonOverrideUnreachable(fd: FileDescriptor)
    requires GoPackageOption(fd).Success?
    ensures var t := GetGoPackage(fd).value;
            var o := GoPackageOption(fd).value;
            && ';' !in o.importPath && ';' !in o.pkg
            && o.importPath == (if '/' in t then t else "")
            && Paths.IsLastElement(t, o.pkg)
  {
    var t := GetGoPackage(fd).value;
    if t != "" && '/' !in t {
      assert t[|t| - |t|..] == t;
    }
  }

  /** A go_package of the form `importPath;alias` names the last element of
      the import path as the package and places the output under the import
      path: the alias after `;` is dropped. */
  lemma AliasIgnored(fd: FileDescriptor, importPath: string, alias: string)
    requires fd.goPackage == importPath + ";" + alias
    requires ';' !in importPath && ';' !in alias && '/' in importPath
    ensures GoPackageName(fd).Success? && GoFileName(fd).Success?
    ensures Paths.IsLastElement(importPath, GoPackageName(fd).value)
    ensures GoFileName(fd).value == Paths.Join(importPath, Paths.Split(SourceStem(fd.name) + GeneratedSuffix).1)
  {
    var pkg := fd.goPackage;
    var n := |importPath|;
    assert pkg[..n] == importPath && pkg[n] == ';' && pkg[n + 1..] == alias;
    Strings.SplitStep(pkg, ';', n);
    assert multiset(alias)[';'] == 0;
    assert GetGoPackage(fd) == Success(importPath);
  }

  /** baseName: the last path element with its last dotted suffix removed. */
  function BaseName(name: string): (r: string)
    ensures '/' !in r
    ensures var file := Paths.Split(name).1;
            && r <= file
            && (r == file <==> '.' !in file)
            && (r != file ==> file[|r|] == '.' && '.' !in file[|r| + 1..])
    ensures '/' !in name && '.' !in name ==> r == name
  {
    var i := Strings.LastIndexOf(name, '/');
    var file := if i >= 0 then name[i + 1..] else name;
    var j := Strings.LastIndexOf(file, '.');
    if j >= 0 then file[..j] else file
  }

  /** goPackageName: the go_package option's package when the option is
      present (even when that package is empty), else the `package` clause
      when it is not empty, else the base name of the file. */
  function GoPackageName(fd: FileDescriptor): (r: Result<string>)
    ensures r.Failure? <==> multiset(fd.goPackage)[';'] > 1
    ensures r.Failure? ==> r.error == MultipleSemicolons(fd.goPackage)
    ensures r.Success? ==>
              var t := GetGoPackage(fd).value;
              && (t != "" && '/' !in t ==> r.value == t)
              && ('/' in t ==> Paths.IsLastElement(t, r.value))
              && (t == "" && fd.package != "" ==> r.value == fd.package)
              && (t == "" && fd.package == "" ==> r.value == BaseName(fd.name))
  {
    var opt :- GoPackageOption(fd);
    if opt.ok then Success(opt.pkg)
    else if fd.package != "" then Success(fd.package)
    else Success(BaseName(fd.name))
  }

  /** The marker every generated file name ends with. */
  const GeneratedSuffix := ".assembly.go"

  /** The file name with a final `.proto` or `.protodevel` removed; any
      other extension is kept. */
  function SourceStem(name: string): (r: string)
    ensures r <= name
    ensures Strings.HasSuffix(name, ".protodevel") ==> r + ".protodevel" == name
    ensures Strings.HasSuffix(name, ".proto") ==> r + ".proto" == name
    ensures !Strings.HasSuffix(name, ".protodevel") && !Strings.HasSuffix(name, ".proto") ==> r == name
  {
    if Strings.HasSuffix(name, ".protodevel") then
      assert !Strings.HasSuffix(name, ".proto") by {
        assert name[|name| - 6..] == ".protodevel"[5..];
      }
      name[..|name| - 11]
    else if Strings.HasSuffix(name, ".proto") then name[..|name| - 6]
    else name
  }

  /** A suffix without a slash lies inside the last path element. */
  lemma SuffixInLastElement(p: string, suffix: string)
    requires forall k :: 0 <= k < |suffix| ==> suffix[k] != '/'
    requires Strings.HasSuffix(p, suffix)
    ensures Strings.HasSuffix(Paths.Split(p).1, suffix)
  {
    var file := Paths.Split(p).1;
    assert p[|p| - |suffix|..] == file[|file| - |suffix|..];
  }

  /** Two suffixes of one text that each hold a dot only in front are
      the same suffix. */
  lemma DottedSuffixUnique(name: string, e: string, ext: string)
    requires Strings.HasSuffix(name, e) && Strings.HasSuffix(name, ext)
    requires |e| > 0 && e[0] == '.' && '.' !in e[1..]
    requires |ext| > 0 && ext[0] == '.' && '.' !in ext[1..]
    ensures e == ext
  {
    var n := |name|;
    assert forall k :: 0 <= k < |e| ==> e[k] == name[n - |e| + k];
    assert forall k :: 0 <= k < |ext| ==> ext[k] == name[n - |ext| + k];
  }

  /** A dotted extension with no other dot or slash is what path.Ext
      answers exactly for the names that end with it. */
  lemma ExtIsSuffix(name: string, ext: string)
    requires |ext| > 0 && ext[0] == '.'
    requires forall k :: 1 <= k < |ext| ==> ext[k] != '.' && ext[k] != '/'
    ensures Paths.Ext(name) == ext <==> Strings.HasSuffix(name, ext)
  {
    var e := Paths.Ext(name);
    if Strings.HasSuffix(name, ext) {
      var k := |name| - |ext|;
      assert forall j :: k <= j < |name| ==> name[j] == ext[j - k];
      Paths.ExtFindsDot(name, k);
      DottedSuffixUnique(name, e, ext);
    }
  }

  /** path.Ext names a source extension exactly when the name ends with it. */
  lemma ExtIsSourceSuffix(name: string)
    ensures Paths.Ext(name) == ".proto" <==> Strings.HasSuffix(name, ".proto")
    ensures Paths.Ext(name) == ".protodevel" <==> Strings.HasSuffix(name, ".protodevel")
  {
    var proto, devel := ".proto", ".protodevel";
    assert forall k :: 1 <= k < |proto| ==> proto[k] != '.' && proto[k] != '/';
    assert forall k :: 1 <= k < |devel| ==> devel[k] != '.' && devel[k] != '/';
    ExtIsSuffix(name, proto);
    ExtIsSuffix(name, devel);
  }

  /** goFileName: the file name without its .proto / .protodevel suffix,
      with the generated-file marker appended, and moved under the
      go_package import path when the option gives one. */
  function GoFileName(fd: FileDescriptor): (r: Result<string>)
    ensures r.Failure? <==> multiset(fd.goPackage)[';'] > 1
    ensures r.Failure? ==> r.error == MultipleSemicolons(fd.goPackage)
    ensures r.Success? ==> Strings.HasSuffix(r.value, GeneratedSuffix)
    ensures r.Success? ==>
              var t := GetGoPackage(fd).value;
              var generated := SourceStem(fd.name) + GeneratedSuffix;
              && ('/' !in t ==> r.value == generated)
              && ('/' in t ==> r.value == Paths.Join(t, Paths.Split(generated).1))
              && ('/' in t ==> Paths.IsLastElement(r.value, Paths.Split(generated).1))
  {
    var opt :- GoPackageOption(fd);
    Success(Relocate(opt, GeneratedName(fd.name)))
  }

  /** The file name with its source extension, if any, replaced by the
      generated-file marker. */
  function GeneratedName(name: string): (r: string)
    ensures r == SourceStem(name) + GeneratedSuffix
  {
    var ext := Paths.Ext(name);
    StemIsSourceStem(name);
    (if ext == ".proto" || ext == ".protodevel" then name[..|name| - |ext|] else name) + GeneratedSuffix
  }

  /** A generated name moved under the option's import path, when there is
      one; left where it is otherwise. */
  function Relocate(opt: PackageOption, generated: string): (r: string)
    ensures !(opt.ok && opt.importPath != "") ==> r == generated
    ensures opt.ok && opt.importPath != "" && Strings.HasSuffix(generated, GeneratedSuffix) ==>
              && Paths.IsLastElement(r, Paths.Split(generated).1)
              && Strings.HasSuffix(r, GeneratedSuffix)
    ensures opt.ok && opt.importPath != "" && Paths.IsPlainDir(opt.importPath)
              && Strings.HasSuffix(generated, GeneratedSuffix) ==>
              r == opt.importPath + "/" + Paths.Split(generated).1
  {
    if opt.ok && opt.importPath != "" then
      var file := Paths.Split(generated).1;
      assert Strings.HasSuffix(generated, GeneratedSuffix) ==>
               && Paths.IsLastElement(Paths.Join(opt.importPath, file), file)
               && Strings.HasSuffix(Paths.Join(opt.importPath, file), GeneratedSuffix) by {
        if Strings.HasSuffix(generated, GeneratedSuffix) {
          Relocated(opt.importPath, generated);
        }
      }
      assert Paths.IsPlainDir(opt.importPath) && Strings.HasSuffix(generated, GeneratedSuffix) ==>
               Paths.Join(opt.importPath, file) == opt.importPath + "/" + file by {
        if Paths.IsPlainDir(opt.importPath) && Strings.HasSuffix(generated, GeneratedSuffix) {
          GeneratedFileIsName(generated);
          Paths.JoinPlain(opt.importPath, file);
        }
      }
      Paths.Join(opt.importPath, file)
    else
      generated
  }

  /** The stem goFileName computes through path.Ext is SourceStem. */
  lemma StemIsSourceStem(name: string)
    ensures var ext := Paths.Ext(name);
            (if ext == ".proto" || ext == ".protodevel" then name[..|name| - |ext|] else name)
            == SourceStem(name)
  {
    ExtIsSourceSuffix(name);
    var devel := ".protodevel";
    assert Strings.HasSuffix(name, devel) ==> !Strings.HasSuffix(name, ".proto") by {
      if Strings.HasSuffix(name, devel) {
        assert name[|name| - 6..] == devel[5..];
      }
    }
  }

  /** Moving a generated name under an import path keeps its file name as
      the last element, and so keeps the generated-file marker. */
  lemma Relocated(importPath: string, generated: string)
    requires importPath != "" && Strings.HasSuffix(generated, GeneratedSuffix)
    ensures Paths.IsLastElement(Paths.Join(importPath, Paths.Split(generated).1), Paths.Split(generated).1)
    ensures Strings.HasSuffix(Paths.Join(importPath, Paths.Split(generated).1), GeneratedSuffix)
  {
    var file := Paths.Split(generated).1;
    GeneratedFileIsName(generated);
    Paths.JoinKeepsFile(importPath, file);
    SuffixOfLastElement(Paths.Join(importPath, file), file, GeneratedSuffix);
  }

  /** The last element of a generated name is a plain file name that keeps
      the generated-file marker. */
  lemma GeneratedFileIsName(generated: string)
    requires Strings.HasSuffix(generated, GeneratedSuffix)
    ensures Paths.IsName(Paths.Split(generated).1)
    ensures Strings.HasSuffix(Paths.Split(generated).1, GeneratedSuffix)
  {
    var suffix := GeneratedSuffix;
    assert '/' !in suffix;
    forall k | 0 <= k < |suffix|
      ensures suffix[k] != '/'
    {
      assert suffix[k] in suffix;
    }
    SuffixInLastElement(generated, suffix);
  }

  lemma SuffixOfLastElement(p: string, file: string, suffix: string)
    requires Paths.IsLastElement(p, file) && Strings.HasSuffix(file, suffix)
    ensures Strings.HasSuffix(p, suffix)
  {
    assert p[|p| - |suffix|..] == file[|file| - |suffix|..];
  }
}
