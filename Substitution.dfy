/** `substitute`: replaces, throughout the nested sequences of a body,
    every symbol whose name is a key of the substitution by the value it
    maps to. Closures, quotes and other atoms are copied as they are. */
module Substitution {
  import opened Values

  /** The `argSub` object: parameter names to argument values (a value
      may be `undefined`, and the key is still present). */
  type Subs = map<string, Expr>

  /** What `substitute(subs, body)` returns. */
  function Substituted(subs: Subs, body: Expr): Expr
    decreases body
  {
    match body
    case Seq(xs) => Seq(seq(|xs|, k requires 0 <= k < |xs| => Substituted(subs, xs[k])))
    case Sym(n) => if n in subs then subs[n] else body
    case _ => body
  }

  /** No symbol in `e`, outside closures and quotes, is a key of `subs`. */
  predicate Untouched(subs: Subs, e: Expr)
    decreases e
  {
    match e
    case Sym(n) => n !in subs
    case Seq(xs) => forall k :: 0 <= k < |xs| ==> Untouched(subs, xs[k])
    case _ => true
  }

  /** `substitute`, as the source writes it: a loop pushing one result per
      element of an array body, mapping itself over nested arrays. */
  method Substitute(subs: Subs, body: Expr) returns (r: Expr)
    ensures r == Substituted(subs, body)
    decreases body
  {
    if body.Seq? {
      var xs := body.items;
      var result: seq<Expr> := [];
      for i := 0 to |xs|
        invariant |result| == i
        invariant forall k :: 0 <= k < i ==> result[k] == Substituted(subs, xs[k])
      {
        var x := xs[i];
        if x.Sym? && x.name in subs {
          result := result + [subs[x.name]];
        } else if x.Seq? {
          var mapped: seq<Expr> := [];
          for j := 0 to |x.items|
            invariant |mapped| == j
            invariant forall k :: 0 <= k < j ==> mapped[k] == Substituted(subs, x.items[k])
          {
            var y := Substitute(subs, x.items[j]);
            mapped := mapped + [y];
          }
          result := result + [Seq(mapped)];
        } else {
          result := result + [x];
        }
      }
      r := Seq(result);
    } else if body.Sym? && body.name in subs {
      r := subs[body.name];
    } else {
      r := body;
    }
  }

  /** One output element per input element: an array body keeps its
      length, a key symbol becomes its value, a nested array is
      substituted in turn, and every other element is copied. */
  lemma SubstitutedShape(subs: Subs, xs: seq<Expr>)
    ensures Substituted(subs, Seq(xs)).Seq?
    ensures |Substituted(subs, Seq(xs)).items| == |xs|
    ensures forall k :: 0 <= k < |xs| ==>
      Substituted(subs, Seq(xs)).items[k] ==
        if xs[k].Sym? && xs[k].name in subs then subs[xs[k].name]
        else if xs[k].Seq? then Substituted(subs, xs[k])
        else xs[k]
  {
  }

  /** A body none of whose symbols is a key comes back unchanged. */
  lemma {:induction false} SubstituteUntouched(subs: Subs, body: Expr)
    requires Untouched(subs, body)
    ensures Substituted(subs, body) == body
    decreases body
  {
    if body.Seq? {
      var xs := body.items;
      forall k | 0 <= k < |xs|
        ensures Substituted(subs, xs[k]) == xs[k]
      {
        SubstituteUntouched(subs, xs[k]);
      }
      assert Substituted(subs, body).items == xs;
    }
  }

  /** The empty substitution is the identity. */
  lemma {:induction false} SubstituteEmpty(body: Expr)
    ensures Substituted(map[], body) == body
  {
    UntouchedByEmpty(body);
    SubstituteUntouched(map[], body);
  }

  lemma {:induction false} UntouchedByEmpty(e: Expr)
    ensures Untouched(map[], e)
    decreases e
  {
    if e.Seq? {
      forall k | 0 <= k < |e.items|
        ensures Untouched(map[], e.items[k])
      {
        UntouchedByEmpty(e.items[k]);
      }
    }
  }

  /** Every symbol left after substituting is either one that was not a
      key, or one brought in by a value: when no value mentions a key, no
      key is left. */
  lemma {:induction false} SubstitutedUntouched(subs: Subs, body: Expr)
    requires forall n :: n in subs ==> Untouched(subs, subs[n])
    ensures Untouched(subs, Substituted(subs, body))
    decreases body
  {
    if body.Seq? {
      var xs := body.items;
      forall k | 0 <= k < |xs|
        ensures Untouched(subs, Substituted(subs, xs[k]))
      {
        SubstitutedUntouched(subs, xs[k]);
      }
    }
  }

  /** Substituting twice is substituting once, when no value mentions a
      key. */
  lemma SubstituteIdempotent(subs: Subs, body: Expr)
    requires forall n :: n in subs ==> Untouched(subs, subs[n])
    ensures Substituted(subs, Substituted(subs, body)) == Substituted(subs, body)
  {
    SubstitutedUntouched(subs, body);
    SubstituteUntouched(subs, Substituted(subs, body));
  }
}
