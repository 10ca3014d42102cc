/** Canonical evidence, level by level: what becomes of each kind of value and which keys are hidden, stated by the
    items and characters themselves. */
module EvidenceFacts {
  import opened Common
  import opened Evidence

  // ---------- Sensitive keys ----------

  /** The character reads as `small` once in lower case; the Kelvin sign reads as a k. */
  predicate ReadsAs(c: char, small: char) {
    if 'A' <= c && c <= 'Z' then c as int + 32 == small as int
    else if c == '\U{212A}' then small == 'k' else c == small
  }

  /** From position `i` on the key reads as the word. */
  predicate ReadsAt(key: string, word: string, i: nat) {
    i + |word| <= |key| && forall k | 0 <= k < |word| :: ReadsAs(key[i + k], word[k])
  }

  predicate Mentions(key: string, word: string) { exists i | 0 <= i <= |key| :: ReadsAt(key, word, i) }

  lemma LowerReads(c: char, small: char)
    ensures LowerChar(c) == small <==> ReadsAs(c, small)
  {
  }

  lemma PrefixReads(key: string, word: string, i: nat)
    requires i <= |key|
    ensures word <= Lower(key)[i..] <==> ReadsAt(key, word, i)
  {
    var low := Lower(key);
    if i + |word| <= |key| {
      forall k | 0 <= k < |word| ensures low[i..][k] == word[k] <==> ReadsAs(key[i + k], word[k]) {
        LowerReads(key[i + k], word[k]);
      }
      assert word <= low[i..] <==> low[i..][..|word|] == word;
    }
  }

  lemma ContainsReads(key: string, word: string)
    ensures Contains(Lower(key), word) <==> Mentions(key, word)
  {
    if Contains(Lower(key), word) {
      var i :| 0 <= i <= |Lower(key)| && word <= Lower(key)[i..];
      PrefixReads(key, word, i);
    }
    if Mentions(key, word) {
      var i :| 0 <= i <= |key| && ReadsAt(key, word, i);
      PrefixReads(key, word, i);
    }
  }

  /** A key is sensitive if and only if it mentions one of these seven words, in whatever case. */
  lemma SensitiveIsExact(key: string)
    ensures Sensitive(key)
       <==> || Mentions(key, "token") || Mentions(key, "secret") || Mentions(key, "password")
            || Mentions(key, "chat_id") || Mentions(key, "db_url") || Mentions(key, "database_url")
            || Mentions(key, "logging")
  {
    ContainsReads(key, "token");
    ContainsReads(key, "secret");
    ContainsReads(key, "password");
    ContainsReads(key, "chat_id");
    ContainsReads(key, "db_url");
    ContainsReads(key, "database_url");
    ContainsReads(key, "logging");
    SensitiveParts(key);
  }

  lemma SensitiveParts(key: string)
    ensures Sensitive(key)
       <==> || Contains(Lower(key), "token") || Contains(Lower(key), "secret") || Contains(Lower(key), "password")
            || Contains(Lower(key), "chat_id") || Contains(Lower(key), "db_url")
            || Contains(Lower(key), "database_url") || Contains(Lower(key), "logging")
  {
    assert SENSITIVE == ["token", "secret", "password", "chat_id", "db_url", "database_url", "logging"];
    assert SENSITIVE[0] == "token" && SENSITIVE[1] == "secret" && SENSITIVE[2] == "password"
           && SENSITIVE[3] == "chat_id" && SENSITIVE[4] == "db_url" && SENSITIVE[5] == "database_url"
           && SENSITIVE[6] == "logging";
  }

  // ---------- Leaves ----------

  /** A number is rounded, an instant becomes its UTC text, a number that is not finite becomes null, and text,
      integers, truth values and null stay. */
  lemma LeavesAreExact(round: Rounding, path: seq<Step>, x: real, t: int, text: string, n: int, b: bool)
    ensures Clean(Number(x), round) == Number(round(x)) && Clean(Moment(t), round) == Iso(t)
    ensures Clean(NaN, round) == Clean(PosInf, round) == Clean(NegInf, round) == Null
    ensures Clean(Str(text), round) == Str(text) && Clean(Int(n), round) == Int(n) && Clean(Bool(b), round) == Bool(b)
    ensures Clean(Null, round) == Null
    ensures Warnings(NaN, path) == [Warning(path, NaN)] && Warnings(PosInf, path) == [Warning(path, PosInf)]
            && Warnings(NegInf, path) == [Warning(path, NegInf)]
    ensures Warnings(Number(x), path) == Warnings(Moment(t), path) == Warnings(Str(text), path) == []
  {
  }

  // ---------- Mappings and lists ----------

  /** What a mapping stores under a key. */
  function Stored(item: Item, round: Rounding): Item {
    Item(item.key, if Sensitive(item.key) then Str("[excluded]") else Clean(item.value, round))
  }

  /** A mapping keeps its keys, in order; under a sensitive one it stores the placeholder, and under any other one the
      canonical form of what was there. */
  lemma MappingIsExact(items: seq<Item>, round: Rounding)
    ensures var c := Clean(Map(items), round);
            && c.Map? && |c.items| == |items|
            && (forall i, j | 0 <= i < j < |c.items| :: !Less(c.items[j].key, c.items[i].key))
            && forall y :: y in c.items <==> exists i | 0 <= i < |items| :: y == Stored(items[i], round)
  {
    var v := Map(items);
    var c := Clean(v, round);
    SortFacts(items);
    SortedSteps(v, c);
    forall i: nat | i < |items| ensures c.items[i] == Stored(Sort(items)[i], round) {
      ItemIsStored(v, i, round);
    }
    forall y ensures y in c.items <==> exists i | 0 <= i < |items| :: y == Stored(items[i], round) {
      SameImage(items, Sort(items), c.items, (item: Item) => Stored(item, round), y);
    }
  }

  lemma ItemIsStored(v: Value, i: nat, round: Rounding)
    requires v.Map? && i < |v.items|
    ensures Clean(v, round).Map? && |Clean(v, round).items| == |v.items|
    ensures Clean(v, round).items[i] == Stored(Sort(v.items)[i], round)
  {
  }

  /** Two lists of the same elements have the same images. */
  lemma SameImage<A, B>(a: seq<A>, b: seq<A>, image: seq<B>, f: A -> B, y: B)
    requires |a| == |b| == |image| && forall i | 0 <= i < |b| :: image[i] == f(b[i])
    requires forall x :: x in b <==> x in a
    ensures y in image <==> exists i | 0 <= i < |a| :: y == f(a[i])
  {
    if y in image {
      var i :| 0 <= i < |image| && image[i] == y;
      assert b[i] in a;
      var j :| 0 <= j < |a| && a[j] == b[i];
      assert y == f(a[j]);
    }
    if i :| 0 <= i < |a| && y == f(a[i]) {
      assert a[i] in b;
      var j :| 0 <= j < |b| && b[j] == a[i];
      assert image[j] == y;
    }
  }

  /** A list or a tuple becomes the list of its elements' canonical forms. */
  lemma ListIsExact(elems: seq<Value>, round: Rounding)
    ensures Clean(Tuple(elems), round) == Clean(List(elems), round)
    ensures var c := Clean(List(elems), round);
            c.List? && |c.elems| == |elems| && forall i | 0 <= i < |elems| :: c.elems[i] == Clean(elems[i], round)
  {
    assert CleanElements(Tuple(elems), |elems|, round) == CleanElements(List(elems), |elems|, round);
  }

  predicate ChildAccepted(v: Value, i: nat)
    requires i < Width(v)
  {
    SupportedChild(v, i)
  }

  lemma {:induction false} SupportedChildren(v: Value, n: nat)
    requires n <= Width(v)
    ensures SupportedUpTo(v, n) <==> forall i | 0 <= i < n :: ChildAccepted(v, i)
    decreases n
  {
    if n > 0 {
      SupportedChildren(v, n - 1);
      assert SupportedUpTo(v, n) <==> SupportedUpTo(v, n - 1) && ChildAccepted(v, n - 1);
    }
  }

  lemma ItemAccepted(items: seq<Item>, i: nat)
    requires i < |items|
    ensures ChildAccepted(Map(items), i) <==> Accepted(Sort(items)[i])
  {
  }

  predicate Accepted(item: Item) { Sensitive(item.key) || Supported(item.value) }

  predicate ElementAccepted(v: Value) { Supported(v) }

  lemma SameElements(a: seq<Item>, b: seq<Item>)
    requires |a| == |b| && forall x :: x in b <==> x in a
    ensures (forall i | 0 <= i < |a| :: Accepted(a[i])) <==> forall i | 0 <= i < |b| :: Accepted(b[i])
  {
    assert (forall i | 0 <= i < |a| :: Accepted(a[i])) <==> forall x | x in a :: Accepted(x);
    assert (forall i | 0 <= i < |b| :: Accepted(b[i])) <==> forall x | x in b :: Accepted(x);
  }

  /** A mapping is accepted if and only if every value under a key that is not sensitive is, */
  lemma MappingAcceptedExactly(items: seq<Item>)
    ensures Supported(Map(items)) <==> forall i | 0 <= i < |items| :: Accepted(items[i])
  {
    SupportedChildren(Map(items), |items|);
    SortFacts(items);
    SameElements(items, Sort(items));
    forall i: nat | i < |items| ensures ChildAccepted(Map(items), i) <==> Accepted(Sort(items)[i]) {
      ItemAccepted(items, i);
    }
  }

  /** a list or tuple if and only if every element is, */
  lemma ListAcceptedExactly(v: Value)
    requires v.List? || v.Tuple?
    ensures Supported(v) <==> forall i | 0 <= i < |v.elems| :: ElementAccepted(v.elems[i])
  {
    SupportedChildren(v, |v.elems|);
    forall i: nat | i < |v.elems| ensures ChildAccepted(v, i) <==> ElementAccepted(v.elems[i]) {
    }
  }

  /** and a single value if and only if its type is known. */
  lemma LeafAcceptedExactly(v: Value)
    requires !v.Map? && !v.List? && !v.Tuple?
    ensures Supported(v) <==> !v.Other?
  {
  }
}
