/** The keyword filter: the default key set, the normalisation `key` applies to a
    word, toggling one word, and the test that decides whether a new article is sent. */
module Filter {
  import opened Strings

  /** The set `get_filter_keys` writes when no keyword file exists yet. */
  const DefaultKeys: set<string> := {"listing", "token"}

  /** `args[0].strip().lower()`: what `key` does to the word it is given. */
  function Normalise(w: string): (r: string)
    ensures NoUpper(r)
  {
    Lower(Strip(w))
  }

  /** A normalised word has no capital letter and no surrounding white space. */
  lemma NormaliseShape(w: string)
    ensures NoUpper(Normalise(w)) && Stripped(Normalise(w))
  {
    StripShape(w);
  }

  lemma NormaliseIdempotent(w: string)
    ensures Normalise(Normalise(w)) == Normalise(w)
  {
    var n := Normalise(w);
    NormaliseShape(w);
    StripFixed(n);
    LowerOfLower(n);
  }

  /** Remove `w` when present, add it otherwise. */
  function Toggle(keys: set<string>, w: string): (r: set<string>)
    ensures w in r <==> w !in keys
    ensures forall k :: k != w ==> (k in r <==> k in keys)
  {
    if w in keys then keys - {w} else keys + {w}
  }

  /** Toggling the same word twice restores the set. */
  lemma ToggleTwice(keys: set<string>, w: string)
    ensures Toggle(Toggle(keys, w), w) == keys
  {
  }

  /** Every key is lower case and carries no surrounding white space: what `key` ever adds. */
  predicate AllNormalised(keys: set<string>)
  {
    forall k :: k in keys ==> NoUpper(k) && Stripped(k)
  }

  lemma DefaultKeysNormalised()
    ensures AllNormalised(DefaultKeys)
  {
  }

  /** Toggling a normalised word keeps a normalised key set normalised. */
  lemma ToggleKeepsNormalised(keys: set<string>, w: string)
    requires AllNormalised(keys)
    ensures AllNormalised(Toggle(keys, Normalise(w)))
  {
    NormaliseShape(w);
  }

  /** `any(k in title for k in keys)`. */
  predicate AnyKeyIn(keys: set<string>, title: string)
  {
    exists k :: k in keys && Contains(title, k)
  }

  /** The filter: a new article is sent when the key set is empty or some key
      occurs in the lower-cased title. The keys themselves are not lower-cased. */
  predicate Passes(title: string, keys: set<string>)
  {
    keys == {} || AnyKeyIn(keys, Lower(title))
  }

  /** The filter in terms of where a key occurs. */
  lemma PassesIff(title: string, keys: set<string>)
    ensures Passes(title, keys) <==>
            keys == {} || exists k, i :: k in keys && OccursAt(Lower(title), k, i)
  {
    var t := Lower(title);
    if AnyKeyIn(keys, t) {
      var k :| k in keys && Contains(t, k);
      ContainsIff(t, k);
    }
    if exists k, i :: k in keys && OccursAt(t, k, i) {
      var k, i :| k in keys && OccursAt(t, k, i);
      ContainsIff(t, k);
    }
  }

  /** A key holding a capital letter never matches, since titles are lower-cased and keys are not. */
  lemma UpperKeyNeverMatches(title: string, k: string, j: int)
    requires 0 <= j < |k| && IsUpper(k[j])
    ensures !Contains(Lower(title), k)
  {
    var t := Lower(title);
    ContainsIff(t, k);
  }

  /** The empty key occurs in every title, so it lets every new article through. */
  lemma EmptyKeyPassesAll(title: string, keys: set<string>)
    requires "" in keys
    ensures Passes(title, keys)
  {
    assert Contains(Lower(title), "");
  }
}
