/** The string handling of the catalog importer: JavaScript's
    `String.prototype.trim`, `split(',')`, and the genre tokenizer
    `s.split(',').map(s => s.trim()).filter(Boolean)`. */
module Tokenizer {

  /** The characters `trim` removes: ECMAScript WhiteSpace and LineTerminator. */
  predicate IsSpace(c: char) {
    || c == '\t' || c == '\n' || c == '\U{000B}' || c == '\U{000C}' || c == '\r'
    || c == ' ' || c == '\U{00A0}' || c == '\U{1680}'
    || ('\U{2000}' <= c <= '\U{200A}')
    || c == '\U{2028}' || c == '\U{2029}' || c == '\U{202F}' || c == '\U{205F}'
    || c == '\U{3000}' || c == '\U{FEFF}'
  }

  predicate AllSpace(s: string) {
    forall i :: 0 <= i < |s| ==> IsSpace(s[i])
  }

  function TrimStart(s: string): string {
    if |s| > 0 && IsSpace(s[0]) then TrimStart(s[1..]) else s
  }

  function TrimEnd(s: string): string {
    if |s| > 0 && IsSpace(s[|s| - 1]) then TrimEnd(s[..|s| - 1]) else s
  }

  /** `s.trim()` */
  function Trim(s: string): string {
    TrimEnd(TrimStart(s))
  }

  /** `s.split(',')`: the pieces between commas, always at least one. */
  function Split(s: string): (r: seq<string>)
    ensures |r| >= 1
  {
    if s == [] then [""]
    else
      var rest := Split(s[1..]);
      if s[0] == ',' then [""] + rest else [[s[0]] + rest[0]] + rest[1..]
  }

  /** `ps.map(s => s.trim())` */
  function TrimAll(ps: seq<string>): (r: seq<string>)
    ensures |r| == |ps|
    ensures forall i {:trigger r[i]} :: 0 <= i < |ps| ==> r[i] == Trim(ps[i])
  {
    seq(|ps|, i requires 0 <= i < |ps| => Trim(ps[i]))
  }

  /** `ps.filter(Boolean)`: drops the empty strings, keeps the order. */
  function NonEmpty(ps: seq<string>): seq<string> {
    if ps == [] then []
    else NonEmpty(ps[..|ps| - 1]) + (if ps[|ps| - 1] == "" then [] else [ps[|ps| - 1]])
  }

  /** The genre tokenizer of the importer. */
  function Tokens(s: string): seq<string> {
    NonEmpty(TrimAll(Split(s)))
  }

  /** A well-formed token: non-empty, comma-free, no surrounding whitespace. */
  predicate IsToken(t: string) {
    && t != ""
    && ',' !in t
    && !IsSpace(t[0])
    && !IsSpace(t[|t| - 1])
  }

  // ----- trim -----

  /** `TrimStart(s)` drops a whitespace-only prefix of `s`. */
  lemma {:induction false} TrimStartShape(s: string)
    ensures |TrimStart(s)| <= |s|
    ensures TrimStart(s) == s[|s| - |TrimStart(s)|..]
    ensures AllSpace(s[..|s| - |TrimStart(s)|])
    ensures TrimStart(s) != [] ==> !IsSpace(TrimStart(s)[0])
  {
    if |s| > 0 && IsSpace(s[0]) {
      TrimStartShape(s[1..]);
      var k := |s| - |TrimStart(s)|;
      assert s[..k] == [s[0]] + s[1..][..k - 1];
    }
  }

  /** `TrimEnd(s)` drops a whitespace-only suffix of `s`. */
  lemma {:induction false} TrimEndShape(s: string)
    ensures |TrimEnd(s)| <= |s|
    ensures TrimEnd(s) == s[..|TrimEnd(s)|]
    ensures AllSpace(s[|TrimEnd(s)|..])
    ensures TrimEnd(s) != [] ==> !IsSpace(TrimEnd(s)[|TrimEnd(s)| - 1])
  {
    if |s| > 0 && IsSpace(s[|s| - 1]) {
      var s' := s[..|s| - 1];
      TrimEndShape(s');
      var k := |TrimEnd(s)|;
      assert s[k..] == s'[k..] + [s[|s| - 1]];
    }
  }

  /** `s.trim()` has no surrounding whitespace and is a slice of `s`
      obtained by removing whitespace on both sides. */
  lemma TrimShape(s: string)
    ensures var t := Trim(s);
      && (t != [] ==> !IsSpace(t[0]) && !IsSpace(t[|t| - 1]))
      && exists a, b :: AllSpace(a) && AllSpace(b) && s == a + t + b
  {
    var u := TrimStart(s);
    TrimStartShape(s);
    TrimEndShape(u);
    var t := TrimEnd(u);
    var a := s[..|s| - |u|];
    var b := u[|t|..];
    assert AllSpace(a) && AllSpace(b);
    assert u == t + b;
    assert s == a + u;
    assert s == a + t + b;
  }

  lemma {:induction false} TrimStartSpacePrefix(w: string, x: string)
    requires AllSpace(w)
    ensures TrimStart(w + x) == TrimStart(x)
  {
    if w != [] {
      assert (w + x)[0] == w[0];
      assert (w + x)[1..] == w[1..] + x;
      assert AllSpace(w[1..]) by {
        forall i | 0 <= i < |w[1..]| ensures IsSpace(w[1..][i]) { assert w[1..][i] == w[i + 1]; }
      }
      TrimStartSpacePrefix(w[1..], x);
    } else {
      assert w + x == x;
    }
  }

  lemma {:induction false} TrimEndSpaceSuffix(x: string, w: string)
    requires AllSpace(w)
    ensures TrimEnd(x + w) == TrimEnd(x)
  {
    if w != [] {
      var w' := w[..|w| - 1];
      assert (x + w)[|x + w| - 1] == w[|w| - 1];
      assert (x + w)[..|x + w| - 1] == x + w';
      assert AllSpace(w') by {
        forall i | 0 <= i < |w'| ensures IsSpace(w'[i]) { assert w'[i] == w[i]; }
      }
      TrimEndSpaceSuffix(x, w');
    } else {
      assert x + w == x;
    }
  }

  lemma {:induction false} TrimStartAppend(p: string, w: string)
    ensures TrimStart(p + w) == if AllSpace(p) then TrimStart(w) else TrimStart(p) + w
  {
    if p == [] {
      assert p + w == w;
    } else {
      assert (p + w)[0] == p[0];
      assert (p + w)[1..] == p[1..] + w;
      if IsSpace(p[0]) {
        TrimStartAppend(p[1..], w);
        assert AllSpace(p) <==> AllSpace(p[1..]) by {
          if AllSpace(p[1..]) {
            forall i | 0 <= i < |p| ensures IsSpace(p[i]) {
              if i > 0 { assert p[i] == p[1..][i - 1]; }
            }
          }
        }
      }
    }
  }

  /** Leading whitespace does not change the trimmed value. */
  lemma TrimSpacePrefix(w: string, x: string)
    requires AllSpace(w)
    ensures Trim(w + x) == Trim(x)
  {
    TrimStartSpacePrefix(w, x);
  }

  /** Trailing whitespace does not change the trimmed value. */
  lemma TrimSpaceSuffix(p: string, w: string)
    requires AllSpace(w)
    ensures Trim(p + w) == Trim(p)
  {
    TrimStartAppend(p, w);
    if AllSpace(p) {
      TrimStartSpacePrefix(w, []);
      assert w + [] == w;
      TrimStartSpacePrefix(p, []);
      assert p + [] == p;
    } else {
      TrimEndSpaceSuffix(TrimStart(p), w);
    }
  }

  /** Trimming twice is trimming once. */
  lemma TrimIdempotent(s: string)
    ensures Trim(Trim(s)) == Trim(s)
  {
    TrimShape(s);
    var t := Trim(s);
    if t != [] {
      assert TrimStart(t) == t;
      assert TrimEnd(t) == t;
    }
  }

  // ----- split -----

  lemma {:induction false} SplitNoComma(w: string)
    requires ',' !in w
    ensures Split(w) == [w]
  {
    if w != [] {
      SplitNoComma(w[1..]);
      assert [w[0]] + w[1..] == w;
    }
  }

  /** A comma-free prefix is glued to the first piece. */
  lemma {:induction false} SplitPrefix(w: string, x: string)
    requires ',' !in w
    ensures Split(w + x) == [w + Split(x)[0]] + Split(x)[1..]
  {
    if w == [] {
      assert w + x == x;
      assert w + Split(x)[0] == Split(x)[0];
    } else {
      assert (w + x)[0] == w[0];
      assert (w + x)[1..] == w[1..] + x;
      SplitPrefix(w[1..], x);
      assert [w[0]] + (w[1..] + Split(x)[0]) == w + Split(x)[0];
    }
  }

  /** The pieces of `c + s` in terms of the pieces of `s`. */
  function ConsPiece(c: char, q: seq<string>): seq<string>
    requires |q| >= 1
  {
    if c == ',' then [""] + q else [[c] + q[0]] + q[1..]
  }

  /** The pieces `q` with `w` appended to the last one. */
  function GlueLast(q: seq<string>, w: string): seq<string>
    requires |q| >= 1
  {
    q[..|q| - 1] + [q[|q| - 1] + w]
  }

  lemma SplitCons(c: char, s: string)
    ensures Split([c] + s) == ConsPiece(c, Split(s))
  {
    assert ([c] + s)[1..] == s;
  }

  lemma ConsGlue(c: char, q: seq<string>, w: string)
    requires |q| >= 1
    ensures ConsPiece(c, GlueLast(q, w)) == GlueLast(ConsPiece(c, q), w)
  {
    if c != ',' && |q| == 1 {
      assert [c] + (q[0] + w) == ([c] + q[0]) + w;
    } else if c != ',' {
      assert GlueLast(q, w)[1..] == q[1..][..|q| - 2] + [q[|q| - 1] + w];
    }
  }

  /** A comma-free suffix is glued to the last piece. */
  lemma {:induction false} SplitSuffix(x: string, w: string)
    requires ',' !in w
    ensures Split(x + w) == GlueLast(Split(x), w)
  {
    if x == [] {
      assert x + w == w;
      SplitNoComma(w);
    } else {
      var c, y := x[0], x[1..];
      assert x == [c] + y;
      assert x + w == [c] + (y + w);
      SplitSuffix(y, w);
      SplitCons(c, y);
      SplitCons(c, y + w);
      ConsGlue(c, Split(y), w);
    }
  }

  /** `ps.join(',')` */
  function Join(ps: seq<string>): string
    requires |ps| >= 1
  {
    if |ps| == 1 then ps[0] else ps[0] + ([','] + Join(ps[1..]))
  }

  /** Prepending a character to the first piece prepends it to the join. */
  lemma JoinCons(c: char, p: string, rest: seq<string>)
    ensures Join([[c] + p] + rest) == [c] + Join([p] + rest)
  {
    if rest != [] {
      var tail := [','] + Join(rest);
      assert ([[c] + p] + rest)[1..] == rest;
      assert ([p] + rest)[1..] == rest;
      assert ([c] + p) + tail == [c] + (p + tail);
    }
  }

  /** `s.split(',').join(',') == s`: the pieces are the text between commas. */
  lemma {:induction false} SplitJoin(s: string)
    ensures Join(Split(s)) == s
  {
    if s != [] {
      var rest := Split(s[1..]);
      SplitJoin(s[1..]);
      if s[0] == ',' {
        assert ([""] + rest)[1..] == rest;
      } else {
        JoinCons(s[0], rest[0], rest[1..]);
        assert [rest[0]] + rest[1..] == rest;
      }
      assert [s[0]] + s[1..] == s;
    }
  }

  /** Every piece of `split(',')` is comma-free. */
  lemma {:induction false} SplitPiecesNoComma(s: string)
    ensures forall i :: 0 <= i < |Split(s)| ==> ',' !in Split(s)[i]
  {
    if s != [] {
      SplitPiecesNoComma(s[1..]);
    }
  }

  // ----- filter -----

  lemma {:induction false} NonEmptyAppend(a: seq<string>, b: seq<string>)
    ensures NonEmpty(a + b) == NonEmpty(a) + NonEmpty(b)
  {
    if b != [] {
      var b' := b[..|b| - 1];
      assert (a + b)[..|a + b| - 1] == a + b';
      NonEmptyAppend(a, b');
    } else {
      assert a + b == a;
    }
  }

  /** `filter(Boolean)` keeps exactly the non-empty elements. */
  lemma {:induction false} NonEmptyMembers(ps: seq<string>)
    ensures forall t :: t in NonEmpty(ps) <==> t in ps && t != ""
  {
    if ps != [] {
      var ps' := ps[..|ps| - 1];
      NonEmptyMembers(ps');
      assert ps == ps' + [ps[|ps| - 1]];
    }
  }

  // ----- the tokenizer -----

  /** Every token is non-empty, comma-free and has no surrounding whitespace. */
  lemma TokensWellFormed(s: string)
    ensures forall t :: t in Tokens(s) ==> IsToken(t)
  {
    var ps := Split(s);
    SplitPiecesNoComma(s);
    NonEmptyMembers(TrimAll(ps));
    forall t | t in Tokens(s) ensures IsToken(t) {
      assert t in TrimAll(ps) && t != "";
      var i :| 0 <= i < |ps| && TrimAll(ps)[i] == t;
      assert t == Trim(ps[i]) && ',' !in ps[i];
      TrimShape(ps[i]);
      var a, b :| AllSpace(a) && AllSpace(b) && ps[i] == a + t + b;
      InfixNoComma(a, t, b);
    }
  }

  lemma InfixNoComma(a: string, t: string, b: string)
    requires ',' !in a + t + b
    ensures ',' !in t
  {
  }

  /** The tokens of `s` are the trimmed non-empty pieces between its commas. */
  lemma TokensMembers(s: string)
    ensures forall t :: t in Tokens(s) <==> t != "" && exists p :: p in Split(s) && t == Trim(p)
  {
    NonEmptyMembers(TrimAll(Split(s)));
    forall t | t != "" && (exists p :: p in Split(s) && t == Trim(p))
      ensures t in TrimAll(Split(s))
    {
      var p :| p in Split(s) && t == Trim(p);
      var i :| 0 <= i < |Split(s)| && Split(s)[i] == p;
      assert TrimAll(Split(s))[i] == t;
    }
  }

  lemma SpaceIsNotComma(w: string)
    requires AllSpace(w)
    ensures ',' !in w
  {
    assert !IsSpace(',');
  }

  lemma TrimAllSpacePrefix(w: string, x: string)
    requires AllSpace(w)
    ensures TrimAll(Split(w + x)) == TrimAll(Split(x))
  {
    SpaceIsNotComma(w);
    SplitPrefix(w, x);
    TrimSpacePrefix(w, Split(x)[0]);
  }

  lemma TrimAllSpaceSuffix(x: string, w: string)
    requires AllSpace(w)
    ensures TrimAll(Split(x + w)) == TrimAll(Split(x))
  {
    SpaceIsNotComma(w);
    SplitSuffix(x, w);
    var p := Split(x);
    var q := Split(x + w);
    TrimSpaceSuffix(p[|p| - 1], w);
    assert |q| == |p|;
    forall i | 0 <= i < |p| ensures Trim(q[i]) == Trim(p[i]) {
      if i < |p| - 1 { assert q[i] == p[i]; } else { assert q[i] == p[i] + w; }
    }
  }

  /** Tokenizing `s.trim()` gives the same tokens as tokenizing `s`, so
      the second import pass (which tokenizes the trimmed Genre field)
      meets the names the first pass collected from the raw field. */
  lemma TokensOfTrim(s: string)
    ensures Tokens(Trim(s)) == Tokens(s)
  {
    TrimShape(s);
    var t := Trim(s);
    var a, b :| AllSpace(a) && AllSpace(b) && s == a + t + b;
    var tb := t + b;
    assert s == a + tb;
    TrimAllSpacePrefix(a, tb);
    TrimAllSpaceSuffix(t, b);
    var ps := TrimAll(Split(t));
    assert TrimAll(Split(s)) == ps;
    assert Tokens(s) == NonEmpty(ps);
  }
}
