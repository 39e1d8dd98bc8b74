/** The records of `data.go`. Go's exported field names are kept, in lower camel case;
    `Reference.Private` is `isPrivate` and `File.Type` is `kind` (both are Dafny words). */
module Data {

  /** One assembly, package or hint-path dependency of a project. */
  datatype Reference = Reference(
    name: string,
    hint: string,
    fullRef: string,
    isPrivate: bool,
    hasPrivate: bool,
    packageName: string,
    isPackage: bool,
    isPackageReference: bool,
    version: string)

  /** An edge to a sibling project: `name` is the sibling's declared root namespace,
      `key` is filled in by the linker. */
  datatype ProjectReference = ProjectReference(
    key: string,
    name: string,
    path: string,
    rootNamespace: string)

  /** A member file of a project with its build action (`kind`). */
  datatype File = File(path: string, kind: string, subType: string)

  /** One record of a `packages.config` file; `versionVal` is the version rank. */
  datatype Package = Package(
    id: string,
    version: string,
    targetFramework: string,
    developmentDependency: bool,
    versionVal: int)

  /** One project description file after loading. */
  datatype Project = Project(
    key: string,
    fullPath: string,
    filename: string,
    frameworkVersion: string,
    rootNamespace: string,
    assemblyName: string,
    references: seq<Reference>,
    projectRefs: seq<ProjectReference>,
    files: seq<File>,
    packages: seq<Package>,
    zip: string)
}
