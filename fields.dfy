/** Scalar fields of a project description (`loadRootNS`, `loadTargetFramework`): the body
    of the first `<tag>…</tag>` pair, ignoring case, or "" when there is none. */
module Fields {
  import opened Wrappers
  import opened Pattern
  import opened GoStrings

  const RootNamespaceOpen := "<rootnamespace>"
  const RootNamespaceClose := "</rootnamespace>"
  /** The framework pattern also consumes the `v` that starts the version number. */
  const FrameworkOpen := "<targetframeworkversion>v"
  const FrameworkClose := "</targetframeworkversion>"

  /** `loadRootNS`: the first `<RootNamespace>` body, "" when no opening tag is followed
      by a closing one. */
  function LoadRootNamespace(contents: string): (ns: string)
    ensures !HasMatch(contents, RootNamespaceOpen, RootNamespaceClose, 0) ==> ns == ""
    ensures forall i, j :: IsLazyMatch(contents, RootNamespaceOpen, RootNamespaceClose, 0, i, j) ==>
              ns == contents[i + |RootNamespaceOpen|..j]
  {
    LazyCaptureIsFirstMatch(contents, RootNamespaceOpen, RootNamespaceClose, 0);
    LazyCapture(contents, RootNamespaceOpen, RootNamespaceClose, 0).GetOr("")
  }

  /** `loadTargetFramework`: the first `<TargetFrameworkVersion>v` body (the text after
      the `v`), "" when there is none. */
  function LoadTargetFramework(contents: string): (tf: string)
    ensures !HasMatch(contents, FrameworkOpen, FrameworkClose, 0) ==> tf == ""
    ensures forall i, j :: IsLazyMatch(contents, FrameworkOpen, FrameworkClose, 0, i, j) ==>
              tf == contents[i + |FrameworkOpen|..j]
  {
    LazyCaptureIsFirstMatch(contents, FrameworkOpen, FrameworkClose, 0);
    LazyCapture(contents, FrameworkOpen, FrameworkClose, 0).GetOr("")
  }

  /** A description that starts with a root-namespace element, its tags written in any
      case (`<RootNamespace>` in real project files), yields that element's text, whatever
      follows (later elements are ignored). */
  lemma RootNamespaceOfLeadingElement(open: string, name: string, close: string, rest: string)
    requires Lower(open) == Lower(RootNamespaceOpen) && Lower(close) == Lower(RootNamespaceClose)
    requires '<' !in name
    ensures LoadRootNamespace(open + name + close + rest) == name
  {
    LazyCaptureOfTaggedBody("", open, RootNamespaceOpen, name, close, RootNamespaceClose, rest);
    assert "" + open == open;
  }

  /** A description that starts with a target-framework element, its tags written in any
      case (`<TargetFrameworkVersion>v` in real project files), yields the version after
      the `v`. */
  lemma FrameworkOfLeadingElement(open: string, version: string, close: string, rest: string)
    requires Lower(open) == Lower(FrameworkOpen) && Lower(close) == Lower(FrameworkClose)
    requires '<' !in version
    ensures LoadTargetFramework(open + version + close + rest) == version
  {
    LazyCaptureOfTaggedBody("", open, FrameworkOpen, version, close, FrameworkClose, rest);
    assert "" + open == open;
  }

  /** The capitalised tags real project files use spell the patterns' tags. */
  lemma RootNamespaceOpenTagMatches()
    ensures Lower("<RootNamespace>") == Lower(RootNamespaceOpen)
  {
  }

  lemma RootNamespaceCloseTagMatches()
    ensures Lower("</RootNamespace>") == Lower(RootNamespaceClose)
  {
  }

  lemma FrameworkOpenTagMatches()
    ensures Lower("<TargetFrameworkVersion>v") == Lower(FrameworkOpen)
  {
  }

  lemma FrameworkCloseTagMatches()
    ensures Lower("</TargetFrameworkVersion>") == Lower(FrameworkClose)
  {
  }

  /** `<RootNamespace>Acme.Web</RootNamespace>` at the head of a description names
      `Acme.Web`, and `<TargetFrameworkVersion>v4.5</TargetFrameworkVersion>` gives `4.5`. */
  lemma ProjectFileExample(rest: string)
    ensures LoadRootNamespace("<RootNamespace>" + "Acme.Web" + "</RootNamespace>" + rest) == "Acme.Web"
    ensures LoadTargetFramework("<TargetFrameworkVersion>v" + "4.5" + "</TargetFrameworkVersion>" + rest) == "4.5"
  {
    RootNamespaceOpenTagMatches();
    RootNamespaceCloseTagMatches();
    FrameworkOpenTagMatches();
    FrameworkCloseTagMatches();
    RootNamespaceOfLeadingElement("<RootNamespace>", "Acme.Web", "</RootNamespace>", rest);
    FrameworkOfLeadingElement("<TargetFrameworkVersion>v", "4.5", "</TargetFrameworkVersion>", rest);
  }
}
