/** The reactive-primitive register (`reactive-scan.ts`): matching found sites
    against the allowlist as bags, cutting a call's arguments out by paren depth,
    and finding the line of a character. */
module ReactiveScan {
  import opened Options
  import opened Separators

  datatype FoundSite = FoundSite(file: string, line: nat, primitive: string, what: string, text: string)
  datatype Allowance = Allowance(file: string, primitive: string, anchor: string, reason: string)

  function SiteKey(file: string, primitive: string, anchor: string): string {
    file + "\0" + primitive + "\0" + anchor
  }

  function KeyOfSite(s: FoundSite): string { SiteKey(s.file, s.primitive, s.text) }

  function KeyOfAllowance(a: Allowance): string { SiteKey(a.file, a.primitive, a.anchor) }

  /** Sites and entries agree on the key exactly when they agree on all three anchors. */
  lemma SiteKeysAreInjective(s: FoundSite, a: Allowance)
    requires '\0' !in s.file && '\0' !in a.file && '\0' !in s.primitive && '\0' !in a.primitive
    ensures KeyOfSite(s) == KeyOfAllowance(a) <==> s.file == a.file && s.primitive == a.primitive && s.text == a.anchor
  {
    var restS, restA := s.primitive + "\0" + s.text, a.primitive + "\0" + a.anchor;
    assert KeyOfSite(s) == s.file + "\0" + restS && KeyOfAllowance(a) == a.file + "\0" + restA;
    if KeyOfSite(s) == KeyOfAllowance(a) {
      SplitAt(s.file, restS, '\0', a.file, restA);
      SplitAt(s.primitive, s.text, '\0', a.primitive, a.anchor);
    }
  }

  // -------------------------------------------------------------- bag matching

  function Count(keys: seq<string>, key: string): nat { multiset(keys)[key] }

  function Keys<T>(items: seq<T>, key: T -> string): seq<string> {
    if items == [] then [] else Keys(items[..|items| - 1], key) + [key(items[|items| - 1])]
  }

  /** The items left over once each key has used up its budget, first come first served. */
  function Surplus<T>(items: seq<T>, key: T -> string, budget: multiset<string>): seq<T> {
    if items == [] then []
    else
      var init, last := items[..|items| - 1], items[|items| - 1];
      Surplus(init, key, budget) + if Count(Keys(init, key), key(last)) >= budget[key(last)] then [last] else []
  }

  function Tally(counts: map<string, nat>, key: string): nat { if key in counts then counts[key] else 0 }

  lemma CountOfOneMore(keys: seq<string>, x: string)
    ensures forall k :: Count(keys + [x], k) == Count(keys, k) + if k == x then 1 else 0
  {
    assert multiset(keys + [x]) == multiset(keys) + multiset{x};
  }

  lemma KeysOfOneMore<T>(items: seq<T>, last: T, key: T -> string)
    ensures Keys(items + [last], key) == Keys(items, key) + [key(last)]
  {
    assert (items + [last])[..|items|] == items;
  }

  lemma KeysOfNext<T>(items: seq<T>, i: nat, key: T -> string)
    requires i < |items|
    ensures Keys(items[..i + 1], key) == Keys(items[..i], key) + [key(items[i])]
  {
    assert items[..i + 1] == items[..i] + [items[i]];
    KeysOfOneMore(items[..i], items[i], key);
  }

  lemma SurplusOfNext<T>(items: seq<T>, i: nat, key: T -> string, budget: multiset<string>)
    requires i < |items|
    ensures Surplus(items[..i + 1], key, budget) == Surplus(items[..i], key, budget)
              + if Count(Keys(items[..i], key), key(items[i])) >= budget[key(items[i])] then [items[i]] else []
  {
    assert items[..i + 1][..i] == items[..i];
  }

  method CountKeys<T>(items: seq<T>, key: T -> string) returns (counts: map<string, nat>)
    ensures forall k :: Tally(counts, k) == Count(Keys(items, key), k)
  {
    counts := map[];
    for i := 0 to |items|
      invariant forall k :: Tally(counts, k) == Count(Keys(items[..i], key), k)
    {
      var found := key(items[i]);
      KeysOfNext(items, i, key);
      CountOfOneMore(Keys(items[..i], key), found);
      counts := counts[found := Tally(counts, found) + 1];
    }
    assert items[..|items|] == items;
  }

  /** Either of the two matching loops. */
  method KeepSurplus<T>(items: seq<T>, key: T -> string, budget: map<string, nat>, ghost allowed: multiset<string>)
    returns (kept: seq<T>)
    requires forall k :: Tally(budget, k) == allowed[k]
    ensures kept == Surplus(items, key, allowed)
  {
    kept := [];
    var seen: map<string, nat> := map[];
    for i := 0 to |items|
      invariant kept == Surplus(items[..i], key, allowed)
      invariant forall k :: Tally(seen, k) == Count(Keys(items[..i], key), k)
    {
      var found := key(items[i]);
      KeysOfNext(items, i, key);
      CountOfOneMore(Keys(items[..i], key), found);
      SurplusOfNext(items, i, key, allowed);
      var already := Tally(seen, found);
      if already >= Tally(budget, found) {
        kept := kept + [items[i]];
      }
      seen := seen[found := already + 1];
    }
    assert items[..|items|] == items;
  }

  lemma BagStep(a: multiset<string>, b: multiset<string>, x: string)
    ensures (a + multiset{x}) - b == (a - b) + if a[x] >= b[x] then multiset{x} else multiset{}
  {
  }

  lemma {:induction false} SurplusIsDifference<T>(items: seq<T>, key: T -> string, budget: multiset<string>)
    ensures multiset(Keys(Surplus(items, key, budget), key)) == multiset(Keys(items, key)) - budget
  {
    if items != [] {
      var init, last := items[..|items| - 1], items[|items| - 1];
      SurplusIsDifference(init, key, budget);
      BagStep(multiset(Keys(init, key)), budget, key(last));
      KeysOfOneMore(Surplus(init, key, budget), last, key);
      if Count(Keys(init, key), key(last)) < budget[key(last)] {
        assert Surplus(items, key, budget) == Surplus(init, key, budget);
      }
    }
  }

  /** The items of one key, in order. */
  function OfKey<T>(items: seq<T>, key: T -> string, k: string): seq<T> {
    if items == [] then []
    else
      var last := items[|items| - 1];
      OfKey(items[..|items| - 1], key, k) + if key(last) == k then [last] else []
  }

  lemma OfKeyOneMore<T>(items: seq<T>, last: T, key: T -> string, k: string)
    ensures OfKey(items + [last], key, k) == OfKey(items, key, k) + if key(last) == k then [last] else []
  {
    assert (items + [last])[..|items|] == items;
  }

  lemma {:induction false} OfKeyIsCounted<T>(items: seq<T>, key: T -> string, k: string)
    ensures |OfKey(items, key, k)| == Count(Keys(items, key), k)
  {
    if items != [] {
      OfKeyIsCounted(items[..|items| - 1], key, k);
      CountOfOneMore(Keys(items[..|items| - 1], key), key(items[|items| - 1]));
    }
  }

  /** A key's budget is used up by its first items: what is kept of the key is the items
      after those, in order, and nothing when there are no more. */
  lemma {:induction false} BudgetGoesToTheFirst<T>(items: seq<T>, key: T -> string, budget: multiset<string>, k: string)
    ensures var all := OfKey(items, key, k);
            OfKey(Surplus(items, key, budget), key, k) == if |all| <= budget[k] then [] else all[budget[k]..]
  {
    if items != [] {
      var init, last := items[..|items| - 1], items[|items| - 1];
      BudgetGoesToTheFirst(init, key, budget, k);
      OfKeyIsCounted(init, key, key(last));
      OfKeyOneMore(Surplus(init, key, budget), last, key, k);
      var before := OfKey(init, key, k);
      if Count(Keys(init, key), key(last)) < budget[key(last)] {
        assert Surplus(items, key, budget) == Surplus(init, key, budget);
      } else if key(last) == k {
        assert (before + [last])[budget[k]..] == before[budget[k]..] + [last];
      }
    }
  }

  lemma {:induction false} KeysLength<T>(items: seq<T>, key: T -> string)
    ensures |Keys(items, key)| == |items|
  {
    if items != [] { KeysLength(items[..|items| - 1], key); }
  }

  function SiteBag(sites: seq<FoundSite>): multiset<string> { multiset(Keys(sites, KeyOfSite)) }

  function AllowedBag(allowlist: seq<Allowance>): multiset<string> { multiset(Keys(allowlist, KeyOfAllowance)) }

  /** `compareSitesToAllowlist`: what is left on either side is the bag difference,
      so a key seen n times and allowed m times leaves n - m sites or m - n entries. */
  method CompareSitesToAllowlist(sites: seq<FoundSite>, allowlist: seq<Allowance>)
    returns (untriaged: seq<FoundSite>, stale: seq<Allowance>)
    ensures untriaged == Surplus(sites, KeyOfSite, AllowedBag(allowlist))
    ensures stale == Surplus(allowlist, KeyOfAllowance, SiteBag(sites))
    ensures SiteBag(untriaged) == SiteBag(sites) - AllowedBag(allowlist)
    ensures AllowedBag(stale) == AllowedBag(allowlist) - SiteBag(sites)
  {
    var allowlistCounts := CountKeys(allowlist, KeyOfAllowance);
    var siteCounts := CountKeys(sites, KeyOfSite);
    untriaged := KeepSurplus(sites, KeyOfSite, allowlistCounts, AllowedBag(allowlist));
    stale := KeepSurplus(allowlist, KeyOfAllowance, siteCounts, SiteBag(sites));
    SurplusIsDifference(sites, KeyOfSite, AllowedBag(allowlist));
    SurplusIsDifference(allowlist, KeyOfAllowance, SiteBag(sites));
  }

  lemma BagBalance(a: multiset<string>, b: multiset<string>)
    ensures |a| - |a - b| == |b| - |b - a|
    ensures a - b == multiset{} && b - a == multiset{} <==> a == b
  {
    assert a * b == b * a;
    assert a == (a - b) + a * b && b == (b - a) + b * a;
    if a - b == multiset{} && b - a == multiset{} {
      forall k ensures a[k] == b[k] {
        assert (a - b)[k] == 0 && (b - a)[k] == 0;
      }
    }
  }

  lemma BagSize<T>(items: seq<T>, key: T -> string)
    ensures |multiset(Keys(items, key))| == |items|
    ensures multiset(Keys(items, key)) == multiset{} <==> items == []
  {
    KeysLength(items, key);
  }

  /** Nothing is left over exactly when the two bags are equal, and as many sites
      are matched as entries. */
  lemma RegisterBalances(sites: seq<FoundSite>, allowlist: seq<Allowance>,
                         untriaged: seq<FoundSite>, stale: seq<Allowance>)
    requires SiteBag(untriaged) == SiteBag(sites) - AllowedBag(allowlist)
    requires AllowedBag(stale) == AllowedBag(allowlist) - SiteBag(sites)
    ensures untriaged == [] && stale == [] <==> SiteBag(sites) == AllowedBag(allowlist)
    ensures |sites| - |untriaged| == |allowlist| - |stale|
  {
    BagBalance(SiteBag(sites), AllowedBag(allowlist));
    BagSize(sites, KeyOfSite);
    BagSize(allowlist, KeyOfAllowance);
    BagSize(untriaged, KeyOfSite);
    BagSize(stale, KeyOfAllowance);
  }

  // ------------------------------------------------------------ call arguments

  /** Opening minus closing parens. */
  function Depth(s: string): int {
    if s == "" then 0
    else Depth(s[..|s| - 1]) + if s[|s| - 1] == '(' then 1 else if s[|s| - 1] == ')' then -1 else 0
  }

  /** Every paren closed, none closed before it is opened. */
  ghost predicate Balanced(s: string) {
    Depth(s) == 0 && forall i :: 0 <= i <= |s| ==> Depth(s[..i]) >= 0
  }

  lemma {:induction false} DepthOfConcat(a: string, b: string)
    ensures Depth(a + b) == Depth(a) + Depth(b)
  {
    if b == "" {
      assert a + b == a;
    } else {
      DepthOfConcat(a, b[..|b| - 1]);
      assert (a + b)[..|a + b| - 1] == a + b[..|b| - 1];
    }
  }

  /** `content` from `open` on is "(" + `inside` + ")" + the rest, `inside` balanced. */
  ghost predicate IsArgumentText(content: string, open: nat, inside: string) {
    && open + |inside| + 1 < |content|
    && content[open] == '(' && content[open + 1 + |inside|] == ')'
    && content[open + 1..open + 1 + |inside|] == inside
    && Balanced(inside)
  }

  method ExtractCallArguments(content: string, openParenIndex: nat) returns (inside: Option<string>)
    ensures inside.Some? ==> IsArgumentText(content, openParenIndex, inside.value)
    ensures inside.None? ==> forall t :: !IsArgumentText(content, openParenIndex, t)
  {
    if openParenIndex >= |content| || content[openParenIndex] != '(' { return None; }
    var depth := 0;
    var i := openParenIndex;
    while i < |content|
      invariant openParenIndex <= i <= |content|
      invariant depth == Depth(content[openParenIndex..i])
      invariant forall j :: openParenIndex < j <= i ==> Depth(content[openParenIndex..j]) > 0
    {
      var ch := content[i];
      assert content[openParenIndex..i + 1][..i - openParenIndex] == content[openParenIndex..i];
      if ch == '(' {
        depth := depth + 1;
      } else if ch == ')' {
        depth := depth - 1;
        if depth == 0 {
          var text := content[openParenIndex + 1..i];
          ClosesWhereDepthReturns(content, openParenIndex, i);
          return Some(text);
        }
      }
      i := i + 1;
    }
    forall t ensures !IsArgumentText(content, openParenIndex, t) {
      if IsArgumentText(content, openParenIndex, t) { TextReturnsToZero(content, openParenIndex, t); }
    }
    return None;
  }

  lemma DepthAfterOpen(content: string, open: nat, j: nat)
    requires open < j <= |content| && content[open] == '('
    ensures Depth(content[open..j]) == 1 + Depth(content[open + 1..j])
  {
    assert content[open..j] == "(" + content[open + 1..j];
    DepthOfConcat("(", content[open + 1..j]);
    assert Depth("(") == 1;
  }

  lemma ClosesWhereDepthReturns(content: string, open: nat, close: nat)
    requires open <= close < |content| && content[open] == '(' && content[close] == ')'
    requires Depth(content[open..close + 1]) == 0
    requires forall j :: open < j <= close ==> Depth(content[open..j]) > 0
    ensures open < close && IsArgumentText(content, open, content[open + 1..close])
  {
    var inside := content[open + 1..close];
    DepthAfterOpen(content, open, close);
    assert content[open..close + 1][..close - open] == content[open..close];
    forall i | 0 <= i <= |inside| ensures Depth(inside[..i]) >= 0 {
      DepthAfterOpen(content, open, open + 1 + i);
      assert inside[..i] == content[open + 1..open + 1 + i];
    }
  }

  lemma TextReturnsToZero(content: string, open: nat, t: string)
    requires IsArgumentText(content, open, t)
    ensures Depth(content[open..open + |t| + 2]) == 0
    ensures forall j :: open < j <= open + 1 + |t| ==> Depth(content[open..j]) > 0
  {
    var close := open + 1 + |t|;
    DepthAfterOpen(content, open, close);
    assert content[open..close + 1][..close - open] == content[open..close];
    forall j | open < j <= close ensures Depth(content[open..j]) > 0 {
      DepthAfterOpen(content, open, j);
      assert content[open + 1..j] == t[..j - open - 1];
    }
  }

  /** There is at most one such text, so the answer is the argument text whenever
      there is one. */
  lemma ArgumentTextIsUnique(content: string, open: nat, t: string, u: string)
    requires IsArgumentText(content, open, t) && IsArgumentText(content, open, u)
    ensures t == u
  {
    TextReturnsToZero(content, open, t);
    TextReturnsToZero(content, open, u);
    assert |t| == |u|;
  }

  // ------------------------------------------------------------------ lines

  function Newlines(s: string): nat {
    if s == "" then 0 else Newlines(s[..|s| - 1]) + if s[|s| - 1] == '\n' then 1 else 0
  }

  lemma {:induction false} NewlinesGrow(s: string, m: nat, n: nat)
    requires m <= n <= |s|
    ensures Newlines(s[..m]) <= Newlines(s[..n])
    decreases n
  {
    if m < n {
      NewlinesGrow(s, m, n - 1);
      assert s[..n][..n - 1] == s[..n - 1];
    }
  }

  /** `starts[k]` is where line k begins. */
  ghost predicate AreLineStarts(content: string, upTo: nat, starts: seq<nat>)
    requires upTo <= |content|
  {
    && |starts| == Newlines(content[..upTo]) + 1 && starts[0] == 0
    && forall k :: 0 < k < |starts| ==>
         0 < starts[k] <= upTo && content[starts[k] - 1] == '\n' && Newlines(content[..starts[k] - 1]) == k - 1
  }

  method LineStarts(content: string) returns (starts: seq<nat>)
    ensures AreLineStarts(content, |content|, starts)
  {
    starts := [0];
    for i := 0 to |content|
      invariant AreLineStarts(content, i, starts)
    {
      assert content[..i + 1][..i] == content[..i];
      if content[i] == '\n' {
        starts := starts + [i + 1];
      }
    }
  }

  lemma StartBounds(content: string, starts: seq<nat>, k: nat, charIndex: nat)
    requires AreLineStarts(content, |content|, starts) && k < |starts| && charIndex <= |content|
    ensures starts[k] <= charIndex <==> k <= Newlines(content[..charIndex])
  {
    if k > 0 {
      var at := starts[k];
      assert content[..at][..at - 1] == content[..at - 1];
      if at <= charIndex { NewlinesGrow(content, at, charIndex); } else { NewlinesGrow(content, charIndex, at - 1); }
    }
  }

  /** The binary search finds the number of newlines before the character. */
  method LineOf(content: string, lineStarts: seq<nat>, charIndex: nat) returns (lo: nat)
    requires AreLineStarts(content, |content|, lineStarts) && charIndex <= |content|
    ensures lo == Newlines(content[..charIndex])
  {
    lo := 0;
    var hi := |lineStarts| - 1;
    NewlinesGrow(content, charIndex, |content|);
    assert content[..|content|] == content;
    while lo < hi
      invariant 0 <= lo <= Newlines(content[..charIndex]) <= hi < |lineStarts|
      decreases hi - lo
    {
      var mid := (lo + hi + 1) / 2;
      StartBounds(content, lineStarts, mid, charIndex);
      if lineStarts[mid] <= charIndex { lo := mid; } else { hi := mid - 1; }
    }
  }
}
