/**
 * Ruby's `File.extname` on a document name, and the default extension that
 * creating a document adds (cms.rb lines 60 and 104).
 *
 * Edge cases this model adopts, following Ruby 2.7 and later on POSIX:
 *  - leading dots belong to the name, not to the extension:
 *    ExtName(".md") == "" and ExtName("..notes") == "";
 *  - the extension starts at the LAST dot after them:
 *    ExtName("a.tar.gz") == ".gz";
 *  - a trailing dot is an extension of its own: ExtName("notes.") == ".";
 *  - '/' is an ordinary character: document names are keys of a flat store.
 */
module FileName {
  import opened Options

  /** The number of '.' characters `s` starts with. */
  function LeadingDots(s: string): (k: nat)
    ensures k <= |s|
    ensures forall i :: 0 <= i < k ==> s[i] == '.'
    ensures k < |s| ==> s[k] != '.'
  {
    if s != [] && s[0] == '.' then 1 + LeadingDots(s[1..]) else 0
  }

  /** The position of the last occurrence of `c` in `s`, if any. */
  function LastIndexOf(s: string, c: char): (r: Option<nat>)
    ensures r.Some? ==> r.value < |s| && s[r.value] == c
    ensures r.Some? ==> forall i :: r.value < i < |s| ==> s[i] != c
    ensures r.None? ==> forall i :: 0 <= i < |s| ==> s[i] != c
  {
    if s == [] then None
    else if s[|s| - 1] == c then Some(|s| - 1)
    else LastIndexOf(s[..|s| - 1], c)
  }

  /** No '.' follows the leading run of dots. */
  predicate NoDotAfterLeadingDots(name: string) {
    forall i :: LeadingDots(name) <= i < |name| ==> name[i] != '.'
  }

  /**
   * `File.extname`: empty when no dot follows the leading dots; otherwise
   * the suffix that starts at the last dot. That suffix has no other dot and
   * is preceded by at least one character that is not a dot.
   */
  function ExtName(name: string): (ext: string)
    ensures |ext| <= |name| && ext == name[|name| - |ext|..]
    ensures ext == [] <==> NoDotAfterLeadingDots(name)
    ensures ext != [] ==> ext[0] == '.' && forall i :: 1 <= i < |ext| ==> ext[i] != '.'
    ensures ext != [] ==> LeadingDots(name) < |name| - |ext|
  {
    var k := LeadingDots(name);
    var rest := name[k..];
    match LastIndexOf(rest, '.')
    case None =>
      assert forall i :: k <= i < |name| ==> name[i] == rest[i - k];
      []
    case Some(j) =>
      assert j != 0 by {
        if k < |name| { assert rest[0] == name[k]; }
      }
      assert rest[j..] == name[k + j..];
      assert name[k + j] == '.';
      assert forall i :: 1 <= i < |rest[j..]| ==> rest[j..][i] == rest[j + i];
      rest[j..]
  }

  /** The extension is determined by the last dot after the leading dots: it starts there. */
  lemma ExtNameFromLastDot(name: string, j: nat)
    requires LeadingDots(name) < j < |name| && name[j] == '.'
    requires forall i :: j < i < |name| ==> name[i] != '.'
    ensures ExtName(name) == name[j..]
  {
    var ext := ExtName(name);
    assert ext != [] by {
      assert LeadingDots(name) <= j < |name| && name[j] == '.';
    }
    var p := |name| - |ext|;
    assert name[p] == '.' by {
      assert name[p] == ext[0];
    }
    assert p == j;
  }

  /** A name made only of dots (or empty) has no extension. */
  predicate AllDots(name: string) {
    LeadingDots(name) == |name|
  }

  /**
   * The name under which POST /new stores a (stripped, non-blank) document
   * name: unchanged when it has an extension, otherwise with ".txt" appended.
   */
  function WithDefaultExtension(n: string): (r: string)
    ensures |n| <= |r| && r[..|n|] == n
    ensures ExtName(n) != "" ==> r == n
    ensures ExtName(n) == "" ==> r[|n|..] == ".txt"
  {
    if ExtName(n) == "" then n + ".txt" else n
  }

  lemma {:induction false} LeadingDotsOfConcat(a: string, b: string)
    requires !AllDots(a)
    ensures LeadingDots(a + b) == LeadingDots(a)
  {
    assert a != [];
    if a[0] == '.' {
      assert (a + b)[1..] == a[1..] + b;
      LeadingDotsOfConcat(a[1..], b);
    }
  }

  /**
   * A name that has no extension and is not all dots gets exactly ".txt" as
   * its extension; one that already has an extension keeps it.
   */
  lemma DefaultExtensionApplied(n: string)
    requires !AllDots(n)
    ensures ExtName(WithDefaultExtension(n)) == (if ExtName(n) == "" then ".txt" else ExtName(n))
  {
    if ExtName(n) == "" {
      var r := n + ".txt";
      LeadingDotsOfConcat(n, ".txt");
      assert r[|n|] == '.';
      var e := ExtName(r);
      assert e != [];
      assert e == r[|n|..];
    }
  }

  /**
   * A name made only of dots never gains an extension: "..." is stored as
   * "....txt", whose extension is still empty.
   */
  lemma AllDotsStayWithoutExtension(n: string)
    requires AllDots(n)
    ensures ExtName(n) == ""
    ensures ExtName(WithDefaultExtension(n)) == ""
  {
    var r := n + ".txt";
    assert r[..|n|] == n;
    assert LeadingDots(r) == |n| + 1 by {
      LeadingDotsOfAllDots(n, "txt");
      assert r == n + "." + "txt";
    }
  }

  lemma {:induction false} LeadingDotsOfAllDots(a: string, b: string)
    requires AllDots(a)
    requires b == [] || b[0] != '.'
    ensures LeadingDots(a + "." + b) == |a| + 1
  {
    if a == [] {
      assert a + "." + b == "." + b;
      assert ("." + b)[1..] == b;
    } else {
      assert (a + "." + b)[1..] == a[1..] + "." + b;
      LeadingDotsOfAllDots(a[1..], b);
    }
  }

  /** Appending the default extension is idempotent for names that are not all dots. */
  lemma DefaultExtensionIdempotent(n: string)
    requires !AllDots(n)
    ensures WithDefaultExtension(WithDefaultExtension(n)) == WithDefaultExtension(n)
  {
    DefaultExtensionApplied(n);
  }
}


module FileNameExamples {
  import opened FileName

  /** The edge cases stated at the head of module FileName: the extension starts at the last dot. */
  lemma ExtNameAtLastDot()
    ensures ExtName("mdpage.md") == ".md"
    ensures ExtName("a.tar.gz") == ".gz"
  {
    var md := "mdpage.md";
    assert LeadingDots(md) == 0;
    ExtNameFromLastDot(md, 6);
    var gz := "a.tar.gz";
    assert LeadingDots(gz) == 0;
    ExtNameFromLastDot(gz, 5);
  }

  /** A trailing dot is an extension of its own. */
  lemma ExtNameOfTrailingDot()
    ensures ExtName("notes.") == "."
  {
    var trailing := "notes.";
    assert LeadingDots(trailing) == 0;
    ExtNameFromLastDot(trailing, 5);
  }

  /** A leading dot alone is no extension; nor is the absence of a dot. */
  lemma ExtNameWithoutDot()
    ensures ExtName(".md") == ""
    ensures ExtName("no_ext") == ""
  {
    var dotMd := ".md";
    assert LeadingDots(dotMd) == 1 by {
      assert dotMd[1..] == "md";
    }
    assert LeadingDots("no_ext") == 0;
  }

  /** The document names the tests create (test/cms_test.rb lines 100 and 109). */
  lemma CreatedNameWithExtension()
    ensures WithDefaultExtension("new_doc.txt") == "new_doc.txt"
  {
    var n := "new_doc.txt";
    assert LeadingDots(n) == 0;
    ExtNameFromLastDot(n, 7);
  }

  lemma CreatedNameWithoutExtension()
    ensures WithDefaultExtension("no_ext") == "no_ext.txt"
  {
    assert LeadingDots("no_ext") == 0;
  }

  /** An all-dot name: "..." is stored as "....txt", which still has no extension. */
  lemma CreatedAllDotsName()
    ensures WithDefaultExtension("...") == "....txt"
    ensures ExtName("....txt") == ""
  {
    var n := "...";
    assert AllDots(n) by {
      assert n[1..] == "..";
      assert n[1..][1..] == ".";
      assert n[1..][1..][1..] == "";
    }
    AllDotsStayWithoutExtension(n);
    assert n + ".txt" == "....txt";
  }
}
