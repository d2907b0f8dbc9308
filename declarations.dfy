/** The script's top-level bindings and the early errors ECMAScript raises for
    them before any of the script runs (section 16.1.1 of ECMA-262, Static
    Semantics: Early Errors for ScriptBody): the names declared with let or
    const must be pairwise distinct, and none of them may also be declared
    by a top-level function or var. */
module Declarations {

  /** The names a script declares at top level, split as ECMA-262 splits
      them: let/const names, and function/var names. */
  datatype TopLevel = TopLevel(lexical: seq<string>, varScoped: seq<string>)

  /** The script is free of the two early errors. */
  predicate EarlyErrorFree(t: TopLevel)
  {
    && (forall i, j :: 0 <= i < j < |t.lexical| ==> t.lexical[i] != t.lexical[j])
    && (forall i :: 0 <= i < |t.lexical| ==> t.lexical[i] !in t.varScoped)
  }

  /** Whether the let/const name at position i is declared again. */
  predicate Redeclared(t: TopLevel, i: int)
    requires 0 <= i < |t.lexical|
  {
    t.lexical[i] in t.varScoped || t.lexical[i] in t.lexical[..i] || t.lexical[i] in t.lexical[i + 1..]
  }

  /** Redeclared, read position by position: the name is var-scoped too,
      or some other let/const position carries the same name. */
  lemma RedeclaredIffClash(t: TopLevel, i: int)
    requires 0 <= i < |t.lexical|
    ensures Redeclared(t, i) <==>
      t.lexical[i] in t.varScoped || exists j :: 0 <= j < |t.lexical| && j != i && t.lexical[j] == t.lexical[i]
  {
    if exists j :: 0 <= j < |t.lexical| && j != i && t.lexical[j] == t.lexical[i] {
      var j :| 0 <= j < |t.lexical| && j != i && t.lexical[j] == t.lexical[i];
      if j < i {
        assert t.lexical[..i][j] == t.lexical[j];
      } else {
        assert t.lexical[i + 1..][j - i - 1] == t.lexical[j];
      }
    }
    if t.lexical[i] in t.lexical[..i] {
      var k :| 0 <= k < i && t.lexical[..i][k] == t.lexical[i];
      assert t.lexical[k] == t.lexical[i];
    }
    if t.lexical[i] in t.lexical[i + 1..] {
      var k :| 0 <= k < |t.lexical| - i - 1 && t.lexical[i + 1..][k] == t.lexical[i];
      assert t.lexical[i + 1 + k] == t.lexical[i];
    }
  }

  /** The script loads exactly when no let/const position is declared again. */
  lemma EarlyErrorFreeIffNoneRedeclared(t: TopLevel)
    ensures EarlyErrorFree(t) <==> forall i :: 0 <= i < |t.lexical| ==> !Redeclared(t, i)
  {
    forall i | 0 <= i < |t.lexical| {
      RedeclaredIffClash(t, i);
    }
    if !EarlyErrorFree(t) && !exists i :: 0 <= i < |t.lexical| && t.lexical[i] in t.varScoped {
      var i, j :| 0 <= i < j < |t.lexical| && t.lexical[i] == t.lexical[j];
      assert Redeclared(t, i);
    }
  }

  /** The positions of the let/const names that are declared again: a
      position is offending when its name is also var-scoped or another
      let/const position carries it, and the script loads exactly when none
      is. */
  function Offending(t: TopLevel): (r: set<int>)
    ensures forall i :: i in r ==> 0 <= i < |t.lexical|
    ensures forall i :: 0 <= i < |t.lexical| ==>
      (i in r <==> t.lexical[i] in t.varScoped || exists j :: 0 <= j < |t.lexical| && j != i && t.lexical[j] == t.lexical[i])
    ensures r == {} <==> EarlyErrorFree(t)
  {
    forall i | 0 <= i < |t.lexical| ensures Redeclared(t, i) <==>
      t.lexical[i] in t.varScoped || exists j :: 0 <= j < |t.lexical| && j != i && t.lexical[j] == t.lexical[i]
    {
      RedeclaredIffClash(t, i);
    }
    EarlyErrorFreeIffNoneRedeclared(t);
    var r := set i | 0 <= i < |t.lexical| && Redeclared(t, i);
    assert r == {} ==> forall i :: 0 <= i < |t.lexical| ==> !Redeclared(t, i) by {
      forall i | 0 <= i < |t.lexical| && r == {} ensures !Redeclared(t, i) {
        assert i !in r;
      }
    }
    r
  }

  /** The top-level function declarations of script.js (lines 7-905). */
  const FunctionNames: seq<string> :=
    ["debounce", "throttle", "getElementOffset", "isElementInViewport",
     "initMobileMenu", "toggleMobileMenu", "initSmoothScroll", "scrollToSection",
     "updateActiveNavLink", "initNavbarScroll", "initStorySlider", "changeSlide",
     "currentSlide", "initProductFilters", "openProductModal", "closeProductModal",
     "initCountAnimation", "startCountAnimation", "toggleCertInfo", "showTipDetail",
     "closeTipModal", "initParallax", "initContactForm", "validateField",
     "clearFieldError", "handleFormSubmit", "showSuccessMessage", "initScrollAnimations",
     "initIntersectionObserver", "initTouchEvents", "optimizeImages",
     "preloadCriticalImages", "addGlobalEventListeners"]

  /** The top-level bindings of script.js as written: the three lets of
      lines 2-4 and the functions. */
  const Script := TopLevel(["currentSlide", "isScrolling", "mobileMenuOpen"], FunctionNames)

  /** As written, the slide index and the go-to-slide function share the
      name currentSlide, so the script is rejected before it runs. */
  lemma CurrentSlideRedeclared()
    ensures Script.lexical[0] == Script.varScoped[12] == "currentSlide"
    ensures Redeclared(Script, 0)
    ensures !EarlyErrorFree(Script)
    ensures 0 in Offending(Script)
  {
    var v := FunctionNames;
    assert v[12] == "currentSlide";
    assert Script.lexical[0] == v[12];
  }

  /** No function is named currentSlideIndex. */
  lemma IndexNameUnused()
    ensures "currentSlideIndex" !in FunctionNames
  {
  }

  /** No function is named isScrolling. */
  lemma ScrollFlagNameUnused()
    ensures "isScrolling" !in FunctionNames
  {
  }

  /** No function is named mobileMenuOpen. */
  lemma MenuFlagNameUnused()
    ensures "mobileMenuOpen" !in FunctionNames
  {
  }

  /** The index given a name of its own; go-to-slide keeps the name the
      markup calls. */
  const Corrected := TopLevel(["currentSlideIndex", "isScrolling", "mobileMenuOpen"], FunctionNames)

  /** With the index renamed, no name is declared twice and the script loads,
      and the go-to-slide function is still there under its old name. */
  lemma CorrectedLoads()
    ensures EarlyErrorFree(Corrected)
    ensures Offending(Corrected) == {}
    ensures "currentSlide" in Corrected.varScoped
  {
    IndexNameUnused();
    ScrollFlagNameUnused();
    MenuFlagNameUnused();
    assert Corrected.varScoped[12] == "currentSlide";
    assert Offending(Corrected) == {};
  }
}
