/**
  Names derived from an HTTP method and a path template: `getTypeNameFromPath`
  for interface names and the function-name expression of `generateApiMethod`.
 */
module Naming {
  import opened Text
  import opened Schemas

  /** The five-entry method table, keyed by the lower-cased verb. */
  function MethodToken(lower: string): Option<string>
  {
    if lower == "get" then Some("Get")
    else if lower == "post" then Some("Post")
    else if lower == "put" then Some("Put")
    else if lower == "delete" then Some("Delete")
    else if lower == "patch" then Some("Patch")
    else None
  }

  /** The method lower-cases to a key of the table. */
  predicate Recognised(verb: string) {
    MethodToken(ToLower(verb)).Some?
  }

  /** `path.split('/').filter(segment => segment)`. */
  function PathSegments(path: string): (segs: seq<string>)
    ensures forall i :: 0 <= i < |segs| ==> segs[i] != "" && '/' !in segs[i]
  {
    var segs := NonEmpty(Split(path, '/'));
    assert forall i :: 0 <= i < |segs| ==> segs[i] in Split(path, '/');
    segs
  }

  function CapitalizeAll(segs: seq<string>): (r: seq<string>)
    ensures |r| == |segs|
  {
    if |segs| == 0 then [] else [Capitalize(segs[0])] + CapitalizeAll(segs[1..])
  }

  /** The capitalised segments joined with nothing between them. */
  function Stem(path: string): string
  {
    Concat(CapitalizeAll(PathSegments(path)))
  }

  /**
    `getTypeNameFromPath(path, suffix, verb)`. For a lower-case method it is
    the function name of the same call with its first letter upper-cased,
    followed by the suffix.
   */
  function TypeName(path: string, suffix: string, verb: string): (r: string)
    requires Recognised(verb)
    ensures ToLower(verb) == verb ==> r == Capitalize(FunctionName(path, verb)) + suffix
  {
    TokenCapitalizesVerb(verb, Stem(path));
    MethodToken(ToLower(verb)).value + Stem(path) + suffix
  }

  /** The `functionName` of `generateApiMethod`: the raw verb, no suffix. */
  function FunctionName(path: string, verb: string): string
  {
    verb + Stem(path)
  }

  lemma {:induction false} CapitalizeAllAppend(xs: seq<string>, ys: seq<string>)
    ensures CapitalizeAll(xs + ys) == CapitalizeAll(xs) + CapitalizeAll(ys)
    decreases |xs|
  {
    if |xs| == 0 {
      assert xs + ys == ys;
    } else {
      assert (xs + ys)[1..] == xs[1..] + ys;
      CapitalizeAllAppend(xs[1..], ys);
    }
  }

  /**
    The stem of `a/b` is the stem of `a` followed by the stem of `b`: names
    depend only on the non-empty segments, so leading, trailing and doubled
    slashes change nothing.
   */
  lemma StemAppend(a: string, b: string)
    ensures Stem(a + "/" + b) == Stem(a) + Stem(b)
  {
    SplitAppend(a, '/', b);
    NonEmptyAppend(Split(a, '/'), Split(b, '/'));
    CapitalizeAllAppend(PathSegments(a), PathSegments(b));
    ConcatAppend(CapitalizeAll(PathSegments(a)), CapitalizeAll(PathSegments(b)));
  }

  lemma LeadingSlashIgnored(path: string)
    ensures Stem("/" + path) == Stem(path)
  {
    StemAppend("", path);
    assert "" + "/" + path == "/" + path;
  }

  /** Each token is its key with the first letter upper-cased. */
  lemma TokenIsCapitalized(lower: string)
    requires MethodToken(lower).Some?
    ensures MethodToken(lower).value == Capitalize(lower)
  {
    if lower == "get" {
      assert Capitalize("get") == "Get" by { assert "get"[1..] == "et"; }
    } else if lower == "post" {
      assert Capitalize("post") == "Post" by { assert "post"[1..] == "ost"; }
    } else if lower == "put" {
      assert Capitalize("put") == "Put" by { assert "put"[1..] == "ut"; }
    } else if lower == "delete" {
      assert Capitalize("delete") == "Delete" by { assert "delete"[1..] == "elete"; }
    } else {
      assert Capitalize("patch") == "Patch" by { assert "patch"[1..] == "atch"; }
    }
  }

  /**
    For a lower-case recognised method, the method token followed by any text
    is that method followed by the text, with its first letter upper-cased.
   */
  lemma TokenCapitalizesVerb(verb: string, rest: string)
    requires Recognised(verb)
    ensures ToLower(verb) == verb ==> MethodToken(verb).value + rest == Capitalize(verb + rest)
  {
    if ToLower(verb) == verb {
      TokenIsCapitalized(verb);
      CapitalizePrefix(verb, rest);
    }
  }

  lemma CapitalizePrefix(a: string, b: string)
    requires a != ""
    ensures Capitalize(a + b) == Capitalize(a) + b
  {
    assert (a + b)[0] == a[0];
    assert (a + b)[1..] == a[1..] + b;
  }

  /** Type names start with the upper-case initial of the method token. */
  lemma TypeNameInitial(path: string, suffix: string, verb: string)
    requires Recognised(verb)
    ensures TypeName(path, suffix, verb)[0] in {'G', 'P', 'D'}
  {
  }

  /** The three suffixes never give one operation two equal names. */
  lemma SuffixesDistinguish(path: string, verb: string)
    requires Recognised(verb)
    ensures TypeName(path, "Request", verb) != TypeName(path, "Response", verb)
    ensures TypeName(path, "Request", verb) != TypeName(path, "ResponseData", verb)
    ensures TypeName(path, "Response", verb) != TypeName(path, "ResponseData", verb)
  {
    assert |TypeName(path, "Request", verb)| + 1 == |TypeName(path, "Response", verb)|;
    assert |TypeName(path, "Response", verb)| + 4 == |TypeName(path, "ResponseData", verb)|;
  }

  /** Two methods on one path share a name only if they lower-case to the same key. */
  lemma MethodsDistinguish(path: string, suffix: string, m1: string, m2: string)
    requires Recognised(m1) && Recognised(m2)
    requires ToLower(m1) != ToLower(m2)
    ensures TypeName(path, suffix, m1) != TypeName(path, suffix, m2)
  {
    var t1 := MethodToken(ToLower(m1)).value;
    var t2 := MethodToken(ToLower(m2)).value;
    var n1 := TypeName(path, suffix, m1);
    var n2 := TypeName(path, suffix, m2);
    TokenPrefixes(ToLower(m1), ToLower(m2));
    assert n1[..2] == t1[..2];
    assert n2[..2] == t2[..2];
  }

  lemma TokenPrefixes(l1: string, l2: string)
    requires MethodToken(l1).Some? && MethodToken(l2).Some? && l1 != l2
    ensures MethodToken(l1).value[..2] != MethodToken(l2).value[..2]
  {
    var p1 := MethodToken(l1).value[..2];
    var p2 := MethodToken(l2).value[..2];
    assert l1 == "get" ==> p1 == "Ge";
    assert l1 == "post" ==> p1 == "Po";
    assert l1 == "put" ==> p1 == "Pu";
    assert l1 == "delete" ==> p1 == "De";
    assert l1 == "patch" ==> p1 == "Pa";
    assert l2 == "get" ==> p2 == "Ge";
    assert l2 == "post" ==> p2 == "Po";
    assert l2 == "put" ==> p2 == "Pu";
    assert l2 == "delete" ==> p2 == "De";
    assert l2 == "patch" ==> p2 == "Pa";
  }

  /** A single non-empty segment without `/` is its own capitalised stem. */
  lemma SegmentStem(seg: string)
    requires seg != "" && '/' !in seg
    ensures Stem(seg) == Capitalize(seg)
  {
    SplitJoin([seg], '/');
    assert Join([seg], ['/']) == seg;
    assert Split(seg, '/') == [seg];
    assert NonEmpty([seg][1..]) == [];
    assert NonEmpty([seg]) == [seg];
    assert PathSegments(seg) == [seg];
    assert [seg][1..] == [];
    assert CapitalizeAll([seg]) == [Capitalize(seg)];
    assert [Capitalize(seg)][1..] == [];
    assert Concat([Capitalize(seg)]) == Capitalize(seg) + "";
  }

  /** `/a/b` for two plain segments gives their capitalised concatenation. */
  lemma TwoSegmentStem(a: string, b: string)
    requires a != "" && '/' !in a && b != "" && '/' !in b
    ensures Stem("/" + a + "/" + b) == Capitalize(a) + Capitalize(b)
  {
    SegmentStem(a);
    SegmentStem(b);
    StemAppend(a, b);
    LeadingSlashIgnored(a + "/" + b);
    assert "/" + (a + "/" + b) == "/" + a + "/" + b;
  }

  /**
    `get` on `/users/{id}`: the braces stay and `{` has no upper case. The
    path is a parameter so that the solver does not unfold `split` on a literal.
   */
  lemma UsersByIdNames(path: string)
    requires path == "/users/{id}"
    ensures TypeName(path, "Request", "get") == "GetUsers{id}Request"
    ensures FunctionName(path, "get") == "getUsers{id}"
  {
    UsersByIdStem(path);
    assert ToLower("get") == "get";
  }

  lemma UsersByIdStem(path: string)
    requires path == "/users/{id}"
    ensures Stem(path) == "Users{id}"
  {
    var a, b := "users", "{id}";
    TwoSegmentStem(a, b);
    assert "/" + a + "/" + b == path;
    assert Capitalize(a) == "Users" by {
      assert UpperChar('u') == 'U';
      assert a[1..] == "sers";
    }
    assert Capitalize(b) == b;
  }
}
