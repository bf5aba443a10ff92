/** The dictionary: `online_scrabble/game/trie.py`. */
module Tries {
  import opened Wrappers

  /** `str.upper` on one character. Only ASCII letters are mapped. */
  function Upper(c: char): (r: char)
    ensures !('a' <= r <= 'z')
    ensures !('a' <= c <= 'z') ==> r == c
  {
    if 'a' <= c <= 'z' then (c as int - 32) as char else c
  }

  function UpperStr(s: string): (r: string)
    ensures |r| == |s|
  {
    if s == [] then [] else [Upper(s[0])] + UpperStr(s[1..])
  }

  lemma UpperStrCons(u: string, v: string)
    requires |u| > 0 && |v| > 0
    ensures UpperStr(u) == UpperStr(v) <==> Upper(u[0]) == Upper(v[0]) && UpperStr(u[1..]) == UpperStr(v[1..])
  {
    assert UpperStr(u) == [Upper(u[0])] + UpperStr(u[1..]);
    assert UpperStr(v) == [Upper(v[0])] + UpperStr(v[1..]);
    if UpperStr(u) == UpperStr(v) {
      assert UpperStr(u)[1..] == UpperStr(u[1..]);
      assert UpperStr(v)[1..] == UpperStr(v[1..]);
    }
  }

  /** A node: the character it was created for (none at the root), whether the path to it spells
      an inserted word, and its children keyed by upper-case character. */
  datatype Trie = Trie(value: Option<char>, valid: bool, children: map<char, Trie>)

  /** `Trie()`: the empty dictionary. */
  function Root(): (r: Trie)
    ensures r.value.None? && !r.valid && r.children == map[]
  {
    Trie(None, false, map[])
  }

  /** `Trie(word)`: a fresh node for `word[0]`, valid exactly when `word` has one character, with a
      chain of fresh nodes below it spelling the rest of `word`. */
  function Chain(word: string): (r: Trie)
    requires |word| > 0
    ensures r.value == Some(word[0])
    ensures r.valid <==> |word| == 1
    ensures |word| == 1 ==> r.children == map[]
    ensures |word| > 1 ==> r.children.Keys == {Upper(word[1])}
  {
    Trie(Some(word[0]), |word| == 1,
         if |word| == 1 then map[] else map[Upper(word[1]) := Chain(word[1..])])
  }

  /** `Trie.find`: the node reached by following `word` upper-cased, `None` for the empty word or
      as soon as a character has no child. */
  function Find(t: Trie, word: string): (r: Option<Trie>)
    ensures |word| == 0 ==> r.None?
    ensures |word| > 0 && Upper(word[0]) !in t.children ==> r.None?
  {
    if |word| == 0 then None
    else
      var c := Upper(word[0]);
      if c !in t.children then None
      else if |word| > 1 then Find(t.children[c], word[1..])
      else Some(t.children[c])
  }

  /** `Trie.contains`. */
  predicate Contains(t: Trie, word: string) {
    var n := Find(t, word);
    n.Some? && n.value.valid
  }

  /** `Trie.insert`. The node of the last character is made valid only when `insert` creates it:
      inserting a word whose node already exists (again, or after a longer word) changes nothing. */
  function Insert(t: Trie, word: string): (r: Trie)
    requires |word| > 0
    ensures r.value == t.value && r.valid == t.valid
    ensures r.children.Keys == t.children.Keys + {Upper(word[0])}
  {
    var c := Upper(word[0]);
    if c !in t.children then t.(children := t.children[c := Chain(word)])
    else if |word| > 1 then t.(children := t.children[c := Insert(t.children[c], word[1..])])
    else t
  }

  /** `Trie.load` without the file: the words inserted one after another into an empty trie. */
  function Build(words: seq<string>): Trie
    requires forall i :: 0 <= i < |words| ==> |words[i]| > 0
  {
    if words == [] then Root() else Insert(Build(words[..|words| - 1]), words[|words| - 1])
  }

  /** `v` is a non-empty prefix of `w`, compared upper-cased. */
  predicate UpperPrefix(v: string, w: string) {
    0 < |v| <= |w| && UpperStr(v) == UpperStr(w[..|v|])
  }

  /** Lookups are case-insensitive: only the upper-cased word matters. */
  lemma {:induction false} FindUpper(t: Trie, u: string, v: string)
    requires UpperStr(u) == UpperStr(v)
    ensures Find(t, u) == Find(t, v)
    decreases |u|
  {
    if |u| > 0 {
      UpperStrCons(u, v);
      var c := Upper(u[0]);
      if c in t.children && |u| > 1 {
        FindUpper(t.children[c], u[1..], v[1..]);
      }
    }
  }

  /** Following a word in two steps is following it at once. */
  lemma {:induction false} FindAppend(t: Trie, u: string, v: string)
    requires |u| > 0 && |v| > 0
    ensures Find(t, u + v) == (if Find(t, u).Some? then Find(Find(t, u).value, v) else None)
    decreases |u|
  {
    var c := Upper(u[0]);
    assert (u + v)[0] == u[0];
    if c in t.children {
      if |u| > 1 {
        assert (u + v)[1..] == u[1..] + v;
        FindAppend(t.children[c], u[1..], v);
      } else {
        assert (u + v)[1..] == v;
      }
    }
  }

  /** The chain built for `word` holds exactly the proper prefixes of `word[1..]` as paths. */
  lemma {:induction false} ChainFind(w: string, u: string)
    requires |w| > 0
    ensures Find(Chain(w), u).Some? <==> 0 < |u| < |w| && UpperStr(u) == UpperStr(w[1..|u| + 1])
    ensures Find(Chain(w), u).Some? ==> (Find(Chain(w), u).value.valid <==> |u| == |w| - 1)
    decreases |w|
  {
    if |u| > 0 && |w| > 1 {
      if |u| > 1 && Upper(u[0]) == Upper(w[1]) {
        ChainFind(w[1..], u[1..]);
      }
      if |u| < |w| {
        UpperStrCons(u, w[1..|u| + 1]);
        if |u| > 1 {
          assert w[1..][1..|u[1..]| + 1] == w[1..|u| + 1][1..];
        }
      }
    }
  }

  /** The words the chain for `w` contains: `w[1..]` only (upper-cased). */
  lemma ChainContains(w: string, u: string)
    requires |w| > 0
    ensures Contains(Chain(w), u) <==> |w| > 1 && UpperStr(u) == UpperStr(w[1..])
  {
    ChainFind(w, u);
    if |w| > 1 && UpperStr(u) == UpperStr(w[1..]) {
      assert w[1..|u| + 1] == w[1..];
    }
  }

  /** After `insert(w)` the trie contains exactly what it contained before, plus `w` itself when
      `w` was not yet a path of the trie. */
  lemma {:induction false} InsertContains(t: Trie, w: string, v: string)
    requires |w| > 0
    ensures Contains(Insert(t, w), v) <==> Contains(t, v) || (UpperStr(v) == UpperStr(w) && Find(t, w).None?)
    decreases |w|
  {
    if |v| > 0 {
      UpperStrCons(v, w);
      var c := Upper(w[0]);
      if Upper(v[0]) == c {
        if c !in t.children {
          if |v| > 1 {
            ChainContains(w, v[1..]);
          }
        } else if |w| > 1 {
          if |v| > 1 {
            InsertContains(t.children[c], w[1..], v[1..]);
          }
        }
      }
    }
  }

  /** After `insert(w)` the paths are the old paths plus every non-empty prefix of `w`. */
  lemma {:induction false} InsertFind(t: Trie, w: string, v: string)
    requires |w| > 0
    ensures Find(Insert(t, w), v).Some? <==> Find(t, v).Some? || UpperPrefix(v, w)
    decreases |w|
  {
    if |v| > 0 {
      if |v| <= |w| {
        UpperStrCons(v, w[..|v|]);
      }
      var c := Upper(w[0]);
      if Upper(v[0]) == c {
        if c !in t.children {
          if |v| > 1 {
            ChainFind(w, v[1..]);
            if |v| <= |w| {
              assert w[..|v|][1..] == w[1..|v[1..]| + 1];
            }
          }
        } else if |w| > 1 {
          if |v| > 1 {
            InsertFind(t.children[c], w[1..], v[1..]);
            if |v| <= |w| {
              assert w[..|v|][1..] == w[1..][..|v[1..]|];
            }
          }
        }
      }
    }
  }

  /** Inserting a word that is already a path of the trie (a repeat, or a prefix of an earlier
      word) leaves the trie unchanged. */
  lemma {:induction false} InsertExistingPathIsNoop(t: Trie, w: string)
    requires |w| > 0 && Find(t, w).Some?
    ensures Insert(t, w) == t
    decreases |w|
  {
    var c := Upper(w[0]);
    if |w| > 1 {
      InsertExistingPathIsNoop(t.children[c], w[1..]);
      assert t.children[c := t.children[c]] == t.children;
    }
  }

  /** The paths of a loaded dictionary are the non-empty prefixes of its words. */
  lemma {:induction false} BuildFind(words: seq<string>, v: string)
    requires forall i :: 0 <= i < |words| ==> |words[i]| > 0
    ensures Find(Build(words), v).Some? <==> exists i :: 0 <= i < |words| && UpperPrefix(v, words[i])
    decreases |words|
  {
    if words != [] {
      var n := |words| - 1;
      var front := words[..n];
      assert forall i :: 0 <= i < n ==> front[i] == words[i];
      assert Build(words) == Insert(Build(front), words[n]);
      BuildFind(front, v);
      InsertFind(Build(front), words[n], v);
      PrefixOfSome(words, v);
    }
  }

  /** `v` starts one of the words exactly when it starts one before the last, or the last. */
  lemma PrefixOfSome(words: seq<string>, v: string)
    requires |words| > 0
    ensures var n := |words| - 1;
            (exists i :: 0 <= i < |words| && UpperPrefix(v, words[i]))
            <==> (exists i :: 0 <= i < n && UpperPrefix(v, words[..n][i])) || UpperPrefix(v, words[n])
  {
    var n := |words| - 1;
    if exists i :: 0 <= i < n && UpperPrefix(v, words[..n][i]) {
      var i :| 0 <= i < n && UpperPrefix(v, words[..n][i]);
      assert UpperPrefix(v, words[i]);
    }
    if exists i :: 0 <= i < |words| && UpperPrefix(v, words[i]) {
      var i :| 0 <= i < |words| && UpperPrefix(v, words[i]);
      if i < n {
        assert UpperPrefix(v, words[..n][i]);
      }
    }
  }

  /** A loaded dictionary contains only words that were inserted: a strict prefix that was never
      inserted itself (such as "avoc" for "avocado") is not contained. */
  lemma {:induction false} BuildContainsOnlyInserted(words: seq<string>, v: string)
    requires forall i :: 0 <= i < |words| ==> |words[i]| > 0
    requires Contains(Build(words), v)
    ensures exists i :: 0 <= i < |words| && UpperStr(v) == UpperStr(words[i])
    decreases |words|
  {
    var n := |words| - 1;
    InsertContains(Build(words[..n]), words[n], v);
    if Contains(Build(words[..n]), v) {
      BuildContainsOnlyInserted(words[..n], v);
      var i :| 0 <= i < n && UpperStr(v) == UpperStr(words[..n][i]);
      assert words[..n][i] == words[i];
    }
  }

  /** No word of the list is a strict prefix (case-insensitively) of a word inserted before it. A
      list sorted in dictionary order has this property. */
  predicate NoLaterStrictPrefix(words: seq<string>) {
    forall i, j :: 0 <= i < j < |words| && |words[j]| < |words[i]|
      ==> UpperStr(words[j]) != UpperStr(words[i][..|words[j]|])
  }

  /** When no word is inserted after a longer word that extends it, every inserted word is
      contained: the no-op of `insert` on an existing path then never loses a word. */
  lemma {:induction false} BuildContainsEveryWord(words: seq<string>, k: nat)
    requires forall i :: 0 <= i < |words| ==> |words[i]| > 0
    requires NoLaterStrictPrefix(words)
    requires k < |words|
    ensures Contains(Build(words), words[k])
    decreases |words|, 1
  {
    var n := |words| - 1;
    NoLaterStrictPrefixFront(words);
    if k < n {
      BuildContainsEveryWord(words[..n], k);
      assert words[..n][k] == words[k];
      InsertContains(Build(words[..n]), words[n], words[k]);
    } else {
      BuildContainsLast(words);
    }
  }

  /** The last word inserted is contained: either its path is new, or some earlier word of the
      same length already ends there. */
  lemma {:induction false} BuildContainsLast(words: seq<string>)
    requires forall i :: 0 <= i < |words| ==> |words[i]| > 0
    requires NoLaterStrictPrefix(words)
    requires |words| > 0
    ensures Contains(Build(words), words[|words| - 1])
    decreases |words|, 0
  {
    var n := |words| - 1;
    var before := Build(words[..n]);
    var w := words[n];
    NoLaterStrictPrefixFront(words);
    InsertContains(before, w, w);
    if Find(before, w).Some? {
      BuildFind(words[..n], w);
      var i :| 0 <= i < n && UpperPrefix(w, words[..n][i]);
      assert words[..n][i] == words[i];
      assert |w| == |words[i]|;
      assert words[i][..|w|] == words[i];
      BuildContainsEveryWord(words[..n], i);
      FindUpper(before, w, words[i]);
    }
  }

  /** Leaving out the last word keeps the words free of later strict prefixes. */
  lemma NoLaterStrictPrefixFront(words: seq<string>)
    requires NoLaterStrictPrefix(words) && |words| > 0
    ensures NoLaterStrictPrefix(words[..|words| - 1])
  {
    var n := |words| - 1;
    forall i, j | 0 <= i < j < n && |words[..n][j]| < |words[..n][i]|
      ensures UpperStr(words[..n][j]) != UpperStr(words[..n][i][..|words[..n][j]|])
    {
      assert words[..n][j] == words[j] && words[..n][i] == words[i];
    }
  }

  /** How `insert` shapes the trie: every child holds the character it was created for, and
      that character upper-cased is its key. */
  predicate WellFormed(t: Trie) {
    forall c :: c in t.children ==>
      t.children[c].value.Some? && Upper(t.children[c].value.value) == c && WellFormed(t.children[c])
  }

  /** Upper-casing twice is upper-casing once, so a well-formed trie's keys are upper case. */
  lemma UpperTwice(c: char)
    ensures Upper(Upper(c)) == Upper(c)
  {
  }

  lemma {:induction false} ChainWellFormed(word: string)
    requires |word| > 0
    ensures WellFormed(Chain(word))
    decreases |word|
  {
    if |word| > 1 {
      ChainWellFormed(word[1..]);
      assert word[1..][0] == word[1];
    }
  }

  /** `insert` keeps a trie well formed. */
  lemma {:induction false} InsertWellFormed(t: Trie, word: string)
    requires |word| > 0 && WellFormed(t)
    ensures WellFormed(Insert(t, word))
    decreases |word|
  {
    var c := Upper(word[0]);
    if c !in t.children {
      ChainWellFormed(word);
    } else if |word| > 1 {
      InsertWellFormed(t.children[c], word[1..]);
    }
  }

  /** So every loaded dictionary is well formed. */
  lemma {:induction false} BuildWellFormed(words: seq<string>)
    requires forall i :: 0 <= i < |words| ==> |words[i]| > 0
    ensures WellFormed(Build(words))
    decreases |words|
  {
    if words != [] {
      BuildWellFormed(words[..|words| - 1]);
      InsertWellFormed(Build(words[..|words| - 1]), words[|words| - 1]);
    }
  }

  /** A node reached in a well-formed trie is well formed, and holds the last character followed,
      up to case. */
  lemma {:induction false} FindWellFormed(t: Trie, word: string)
    requires WellFormed(t) && Find(t, word).Some?
    ensures WellFormed(Find(t, word).value)
    ensures Find(t, word).value.value.Some?
    ensures Upper(Find(t, word).value.value.value) == Upper(word[|word| - 1])
    decreases |word|
  {
    var c := Upper(word[0]);
    if |word| > 1 {
      FindWellFormed(t.children[c], word[1..]);
    } else {
      UpperTwice(word[0]);
    }
  }

  /** The dictionary of the source's tests: "avocado" is contained, its prefix "avoc" is not. */
  lemma AvocadoDictionary()
    ensures Contains(Build(["AVOCADO"]), "avocado")
    ensures !Contains(Build(["AVOCADO"]), "avoc")
  {
    var ws := ["AVOCADO"];
    assert ws[..0] == [];
    InsertContains(Root(), "AVOCADO", "avocado");
    InsertContains(Root(), "AVOCADO", "avoc");
    assert UpperStr("avocado") == "AVOCADO";
  }

  /** The preserved quirk: a word inserted after a longer word that extends it is not contained. */
  lemma PrefixAfterLongerWordIsLost()
    ensures !Contains(Build(["AVOCADO", "AVO"]), "AVO")
  {
    var ws := ["AVOCADO", "AVO"];
    assert ws[..1] == ["AVOCADO"] && ws[..1][..0] == [];
    var t := Insert(Root(), "AVOCADO");
    InsertContains(Root(), "AVOCADO", "AVO");
    InsertFind(Root(), "AVOCADO", "AVO");
    assert UpperStr("AVO") == UpperStr("AVOCADO"[..3]);
    InsertExistingPathIsNoop(t, "AVO");
  }
}
