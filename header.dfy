/** The site header (src/components/layout/Header.jsx): the `cls` class-name
    joiner, the English/Hindi language toggle and the mobile menu button. */
module Header {
  import opened Seqs
  import opened Text

  /** One argument of `cls`: a class string, or a falsy non-string such as the
      `false` that `cond && 'name'` yields when cond fails (or null/undefined). */
  datatype ClassArg = Name(s: string) | NotAName

  /** JavaScript truthiness of an argument: a non-empty string. */
  predicate Truthy(a: ClassArg) {
    a.Name? && a.s != ""
  }

  /** `classes.filter(Boolean)`, as the list of the surviving strings. */
  function KeptNames(args: seq<ClassArg>): (r: seq<string>)
    ensures |r| <= |args|
    ensures forall i :: 0 <= i < |r| ==> r[i] != ""
  {
    if args == [] then []
    else (if Truthy(args[0]) then [args[0].s] else []) + KeptNames(args[1..])
  }

  /** `cls(...classes)`: the truthy arguments, in order, joined by single spaces. */
  function Cls(args: seq<ClassArg>): string {
    Join(KeptNames(args), " ")
  }

  /** A list of class strings as `cls` arguments. */
  function AsArgs(names: seq<string>): seq<ClassArg> {
    if names == [] then [] else [Name(names[0])] + AsArgs(names[1..])
  }

  /** `classes.filter(Boolean)` is Array.prototype.filter with JavaScript
      truthiness: the surviving strings are the truthy arguments, in order. */
  lemma {:induction false} KeptNamesIsFilter(args: seq<ClassArg>)
    ensures AsArgs(KeptNames(args)) == Filter(args, Truthy)
  {
    if args != [] {
      KeptNamesIsFilter(args[1..]);
      var rest := KeptNames(args[1..]);
      if Truthy(args[0]) {
        var kept := [args[0].s] + rest;
        assert kept[0] == args[0].s && kept[1..] == rest;
        assert Name(args[0].s) == args[0];
      } else {
        assert KeptNames(args) == rest;
      }
    }
  }

  /** A string is kept exactly when it is non-empty and passed as an
      argument. */
  lemma {:induction false} KeptNamesExact(args: seq<ClassArg>, s: string)
    ensures s in KeptNames(args) <==> s != "" && Name(s) in args
  {
    if args != [] {
      KeptNamesExact(args[1..], s);
      assert args == [args[0]] + args[1..];
    }
  }

  /** The kept strings appear in the order of the arguments. */
  lemma KeptNamesInOrder(args: seq<ClassArg>)
    ensures IsSubsequence(AsArgs(KeptNames(args)), args)
  {
    KeptNamesIsFilter(args);
    FilterIsSubsequence(args, Truthy);
  }

  /** Nothing survives the filter exactly when no argument is truthy. */
  lemma {:induction false} KeptNamesEmpty(args: seq<ClassArg>)
    ensures KeptNames(args) == [] <==> forall i :: 0 <= i < |args| ==> !Truthy(args[i])
  {
    if args != [] {
      KeptNamesEmpty(args[1..]);
      assert forall i :: 1 <= i < |args| ==> args[i] == args[1..][i - 1];
    }
  }

  /** `cls` returns '' exactly when no argument is truthy. */
  lemma ClsEmpty(args: seq<ClassArg>)
    ensures Cls(args) == "" <==> forall i :: 0 <= i < |args| ==> !Truthy(args[i])
  {
    KeptNamesEmpty(args);
    var kept := KeptNames(args);
    if kept != [] {
      assert kept[0] != "";
      if |kept| > 1 {
        assert Cls(args) == kept[0] + " " + Join(kept[1..], " ");
      }
    }
  }

  /** When no class string holds a space, splitting the result at spaces gives
      back the kept arguments: nothing is lost, merged or reordered. */
  lemma ClsSplitsBack(args: seq<ClassArg>)
    requires exists i :: 0 <= i < |args| && Truthy(args[i])
    requires forall i :: 0 <= i < |args| && args[i].Name? ==> ' ' !in args[i].s
    ensures Split(Cls(args), ' ') == KeptNames(args)
  {
    KeptNamesEmpty(args);
    KeptNamesNoSpace(args);
    SplitJoin(KeptNames(args), ' ');
  }

  lemma {:induction false} KeptNamesNoSpace(args: seq<ClassArg>)
    requires forall i :: 0 <= i < |args| && args[i].Name? ==> ' ' !in args[i].s
    ensures forall i :: 0 <= i < |KeptNames(args)| ==> ' ' !in KeptNames(args)[i]
  {
    if args != [] {
      assert forall i :: 0 <= i < |args[1..]| ==> args[1..][i] == args[i + 1];
      KeptNamesNoSpace(args[1..]);
    }
  }

  // ---------------------------------------------------------------------------
  // Language toggle
  // ---------------------------------------------------------------------------

  /** The language a click switches to: 'en' becomes 'hi', anything else 'en'. */
  function ToggleLanguage(language: string): (r: string)
    ensures r == "en" || r == "hi"
    ensures r == "hi" <==> language == "en"
  {
    if language == "en" then "hi" else "en"
  }

  /** The name of a language in its own script, and in English. */
  function NativeName(code: string): string {
    if code == "hi" then "\U{0939}\U{093F}\U{0902}\U{0926}\U{0940}" else "English"
  }

  function EnglishName(code: string): string {
    if code == "hi" then "Hindi" else "English"
  }

  /** The button's visible label. */
  function ToggleLabel(language: string): string {
    if language == "en" then "\U{0939}\U{093F}\U{0902}\U{0926}\U{0940}" else "English"
  }

  /** The button's aria-label. */
  function ToggleAriaLabel(language: string): string {
    if language == "en" then "Switch to Hindi" else "Switch to English"
  }

  /** Both labels name the language the click will switch to. */
  lemma LabelsNameTarget(language: string)
    ensures ToggleLabel(language) == NativeName(ToggleLanguage(language))
    ensures ToggleAriaLabel(language) == "Switch to " + EnglishName(ToggleLanguage(language))
  {
  }

  /** Two clicks return to the start from either supported language; from any
      other value the first click lands on 'en'. */
  lemma ToggleTwice(language: string)
    ensures language == "en" || language == "hi" ==>
              ToggleLanguage(ToggleLanguage(language)) == language
    ensures language != "en" ==> ToggleLanguage(language) == "en"
  {
  }

  /** The menu button: `setMenuOpen(!menuOpen)`. */
  function ToggleMenu(menuOpen: bool): (r: bool)
    ensures r != menuOpen
  {
    !menuOpen
  }

  /** The menu button's aria-label follows the state it would leave. */
  function MenuAriaLabel(menuOpen: bool): string {
    if menuOpen then "Close menu" else "Open menu"
  }

  /** The menu button's aria-label names what a click does: "Open menu"
      exactly when the click opens the menu, "Close menu" exactly when it
      closes it. */
  lemma MenuLabelNamesAction(menuOpen: bool)
    ensures MenuAriaLabel(menuOpen) == "Open menu" <==> ToggleMenu(menuOpen)
    ensures MenuAriaLabel(menuOpen) == "Close menu" <==> !ToggleMenu(menuOpen)
  {
  }
}
