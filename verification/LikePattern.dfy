/**
 The search boxes' match (backend/app/db.py): `escape_like` makes a text literal inside a
 LIKE pattern, and `contains` looks for it anywhere in a column, whatever its case.
 */
module LikePattern {
  import opened Text

  predicate IsMeta(c: char) { c == '\\' || c == '%' || c == '_' }

  /** SQL LIKE with escape character `\`. A pattern ending in a lone `\` matches nothing. */
  ghost predicate Like(p: string, s: string)
    decreases |p|
  {
    if p == [] then s == []
    else if p[0] == '\\' then |p| >= 2 && s != [] && s[0] == p[1] && Like(p[2..], s[1..])
    else if p[0] == '%' then exists k | 0 <= k <= |s| :: Like(p[1..], s[k..])
    else s != [] && (p[0] == '_' || s[0] == p[0]) && Like(p[1..], s[1..])
  }

  /** No escape character is left dangling, which PostgreSQL refuses. */
  predicate WellFormed(p: string) {
    p == [] || if p[0] == '\\' then |p| >= 2 && WellFormed(p[2..]) else WellFormed(p[1..])
  }

  function EscapeLike(text: string): string {
    ReplaceChar(ReplaceChar(ReplaceChar(text, '\\', "\\\\"), '%', "\\%"), '_', "\\_")
  }

  /** Every character of `text` on its own, with a backslash in front of the special ones. */
  function Literally(text: string): string {
    if text == [] then [] else (if IsMeta(text[0]) then ['\\', text[0]] else [text[0]]) + Literally(text[1..])
  }

  /** A text folded character by character; one character may become several, or none. */
  function Folded(s: string, lower: char -> string): string {
    if s == [] then [] else lower(s[0]) + Folded(s[1..], lower)
  }

  predicate NoMeta(s: string) { forall i | 0 <= i < |s| :: !IsMeta(s[i]) }

  /** Case folding leaves the special characters alone and makes none of the others. */
  ghost predicate KeepsMeta(lower: char -> string) {
    forall c :: if IsMeta(c) then lower(c) == [c] else NoMeta(lower(c))
  }

  /** `column.ilike(f"%{escape_like(text)}%", escape="\\")`: both sides lower-cased, then LIKE. */
  ghost predicate Contains(column: string, text: string, lower: char -> string) {
    Like(Folded("%" + EscapeLike(text) + "%", lower), Folded(column, lower))
  }

  /** The three replacements, one after the other, are one map over the characters. */
  lemma {:induction false} EscapeIsPerCharacter(text: string)
    ensures EscapeLike(text) == Literally(text)
  {
    if text == [] {
    } else {
      var c, rest := text[..1], text[1..];
      var a := ReplaceChar(rest, '\\', "\\\\");
      var b := ReplaceChar(a, '%', "\\%");
      EscapeIsPerCharacter(rest);
      if c == "\\" {
        assert ReplaceChar(text, '\\', "\\\\") == "\\\\" + a;
        ReplaceCharAppend("\\\\", a, '%', "\\%");
        ReplaceCharAppend("\\\\", b, '_', "\\_");
        TwoPlain('\\', '\\', '%', "\\%");
        TwoPlain('\\', '\\', '_', "\\_");
      } else if c == "%" {
        assert ReplaceChar(text, '\\', "\\\\") == c + a;
        assert ReplaceChar(c + a, '%', "\\%") == "\\%" + b;
        ReplaceCharAppend("\\%", b, '_', "\\_");
        TwoPlain('\\', '%', '_', "\\_");
      } else {
        assert ReplaceChar(text, '\\', "\\\\") == c + a;
        assert ReplaceChar(c + a, '%', "\\%") == c + b;
      }
    }
  }

  /** A pair without the replaced character is left alone. */
  lemma TwoPlain(x: char, y: char, c: char, r: string)
    requires x != c && y != c
    ensures ReplaceChar([x, y], c, r) == [x, y]
  {
    assert [x, y][1..] == [y] && [y][1..] == [];
    assert ReplaceChar([y], c, r) == [y];
  }

  lemma {:induction false} LiterallyWellFormed(text: string, rest: string)
    requires WellFormed(rest)
    ensures WellFormed(Literally(text) + rest)
  {
    if text == [] {
      assert Literally(text) + rest == rest;
    } else {
      LiterallyWellFormed(text[1..], rest);
      var head := if IsMeta(text[0]) then ['\\', text[0]] else [text[0]];
      assert (Literally(text) + rest)[|head|..] == Literally(text[1..]) + rest;
    }
  }

  /** One literal character consumes exactly itself. */
  lemma LiteralConsumesOne(c: char, tail: string, s: string)
    ensures Like((if IsMeta(c) then ['\\', c] else [c]) + tail, s) <==> s != [] && s[0] == c && Like(tail, s[1..])
  {
    if IsMeta(c) {
      assert (['\\', c] + tail)[2..] == tail;
    } else {
      assert ([c] + tail)[1..] == tail;
    }
  }

  lemma PrefixMoves(text: string, s: string)
    requires text != [] && s != [] && s[0] == text[0]
    ensures text <= s <==> text[1..] <= s[1..]
    ensures text <= s ==> s[1..][|text| - 1..] == s[|text|..]
  {
    if text[1..] <= s[1..] {
      assert text == [text[0]] + text[1..] && s == [s[0]] + s[1..];
    }
  }

  /** A literal text consumes exactly itself and leaves the rest of the pattern the rest of the string. */
  lemma {:induction false} LiteralConsumes(text: string, rest: string, s: string)
    ensures Like(Literally(text) + rest, s) <==> text <= s && Like(rest, s[|text|..])
  {
    if text == [] {
      assert Literally(text) + rest == rest && s[0..] == s;
    } else {
      var tail := Literally(text[1..]) + rest;
      LiteralConsumesOne(text[0], tail, s);
      assert Literally(text) + rest == (if IsMeta(text[0]) then ['\\', text[0]] else [text[0]]) + tail;
      if s != [] && s[0] == text[0] {
        LiteralConsumes(text[1..], rest, s[1..]);
        PrefixMoves(text, s);
      }
    }
  }

  /** `%` + the escaped text + `%` matches exactly the strings that hold the text. */
  lemma EscapedMatchesExactlyOccurrences(text: string, s: string)
    ensures WellFormed("%" + EscapeLike(text) + "%")
    ensures Like("%" + EscapeLike(text) + "%", s) <==> Occurs(text, s)
  {
    EscapeIsPerCharacter(text);
    var inner := Literally(text) + "%";
    var p := "%" + EscapeLike(text) + "%";
    assert p[1..] == inner;
    LiterallyWellFormed(text, "%");
    forall k | 0 <= k <= |s|
      ensures Like(inner, s[k..]) <==> OccursAt(text, s, k)
    {
      LiteralConsumes(text, "%", s[k..]);
      if k + |text| <= |s| {
        assert s[k..][..|text|] == s[k..k + |text|];
        var tail := s[k..][|text|..];
        assert Like("%"[1..], tail[|tail|..]);
        assert Like("%", tail);
      }
    }
    assert Like(p, s) <==> exists k | 0 <= k <= |s| :: Like(p[1..], s[k..]);
  }

  lemma {:induction false} FoldedAppend(s: string, t: string, lower: char -> string)
    ensures Folded(s + t, lower) == Folded(s, lower) + Folded(t, lower)
  {
    if s == [] {
      assert s + t == t;
    } else {
      assert (s + t)[1..] == s[1..] + t;
      FoldedAppend(s[1..], t, lower);
    }
  }

  lemma FoldedOne(c: char, lower: char -> string)
    ensures Folded([c], lower) == lower(c)
  {
    assert [c][1..] == [] && lower(c) + [] == lower(c);
  }

  lemma {:induction false} LiterallyAppend(s: string, t: string)
    ensures Literally(s + t) == Literally(s) + Literally(t)
  {
    if s == [] {
      assert s + t == t;
    } else {
      assert (s + t)[1..] == s[1..] + t;
      LiterallyAppend(s[1..], t);
    }
  }

  lemma {:induction false} LiterallyPlain(s: string)
    requires NoMeta(s)
    ensures Literally(s) == s
  {
    if s != [] {
      LiterallyPlain(s[1..]);
    }
  }

  /** Escaping and folding do not get into each other's way. */
  lemma {:induction false} LiterallyFolds(text: string, lower: char -> string)
    requires KeepsMeta(lower)
    ensures Folded(Literally(text), lower) == Literally(Folded(text, lower))
  {
    if text != [] {
      var c := text[0];
      LiterallyFolds(text[1..], lower);
      LiterallyAppend(lower(c), Folded(text[1..], lower));
      if IsMeta(c) {
        FoldedAppend(['\\', c], Literally(text[1..]), lower);
        FoldedAppend(['\\'], [c], lower);
        assert ['\\', c] == ['\\'] + [c];
        FoldedOne('\\', lower);
        FoldedOne(c, lower);
        assert [c][1..] == [] && Literally([c]) == ['\\', c];
      } else {
        LiterallyPlain(lower(c));
        FoldedAppend([c], Literally(text[1..]), lower);
        FoldedOne(c, lower);
      }
    }
  }

  /** The search box finds exactly the rows whose column holds the text, case aside. */
  lemma ContainsIsOccurrence(column: string, text: string, lower: char -> string)
    requires KeepsMeta(lower)
    ensures Contains(column, text, lower) <==> Occurs(Folded(text, lower), Folded(column, lower))
  {
    EscapeIsPerCharacter(text);
    EscapeIsPerCharacter(Folded(text, lower));
    LiterallyFolds(text, lower);
    FoldedOne('%', lower);
    FoldedAppend("%" + EscapeLike(text), "%", lower);
    FoldedAppend("%", EscapeLike(text), lower);
    EscapedMatchesExactlyOccurrences(Folded(text, lower), Folded(column, lower));
  }

  /** A string that a pattern ending in `%` matches. */
  function Instance(p: string): string {
    if p == [] then []
    else if p[0] == '\\' then if |p| >= 2 then [p[1]] + Instance(p[2..]) else []
    else if p[0] == '%' then Instance(p[1..])
    else (if p[0] == '_' then "a" else p[..1]) + Instance(p[1..])
  }

  lemma {:induction false} InstanceMatches(p: string)
    requires WellFormed(p)
    ensures Like(p, Instance(p))
  {
    if p != [] {
      if p[0] == '\\' {
        InstanceMatches(p[2..]);
        assert Instance(p)[1..] == Instance(p[2..]);
      } else {
        InstanceMatches(p[1..]);
        if p[0] == '%' {
          assert Instance(p[1..])[0..] == Instance(p);
        } else {
          assert Instance(p)[1..] == Instance(p[1..]);
        }
      }
    }
  }

  /** It is no longer than the text in front of that `%`, and another one if the text is special. */
  lemma {:induction false} InstanceIsOther(text: string)
    ensures WellFormed(text + "%") && |Instance(text + "%")| <= |text|
    ensures Instance(text + "%") == text ==> NoMeta(text)
  {
    var p := text + "%";
    if text == [] {
      assert p == "%" && p[1..] == [];
    } else if |text| == 1 && text[0] == '\\' {
      assert p[2..] == [] && p[1] == '%';
    } else {
      var n := if text[0] == '\\' then 2 else 1;
      assert p[n..] == text[n..] + "%";
      InstanceIsOther(text[n..]);
      if Instance(p) == text {
        assert n == 1 && text[0] != '%';
        assert text[1..] == Instance(p)[1..] == Instance(p[1..]);
      }
    }
  }

  lemma OccursInShort(t: string, s: string)
    requires Occurs(t, s) && |s| <= |t|
    ensures s == t
  {
    var k :| 0 <= k <= |s| && OccursAt(t, s, k);
    assert s[k..k + |t|] == s;
  }

  /** Without the escaping the match is right exactly for the texts that hold no special character. */
  lemma UnescapedMatchesExactly(text: string)
    ensures (forall s :: Like("%" + text + "%", s) <==> Occurs(text, s)) <==> NoMeta(text)
  {
    if NoMeta(text) {
      LiterallyPlain(text);
      EscapeIsPerCharacter(text);
      forall s ensures Like("%" + text + "%", s) <==> Occurs(text, s) {
        EscapedMatchesExactlyOccurrences(text, s);
      }
    } else {
      var s := Instance(text + "%");
      InstanceIsOther(text);
      InstanceMatches(text + "%");
      assert ("%" + text + "%")[1..] == text + "%" && s[0..] == s;
      assert Like("%" + text + "%", s);
      if Occurs(text, s) {
        OccursInShort(text, s);
      }
    }
  }
}
