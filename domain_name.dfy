/** Start-up derivation of the record's sub-domain label (main.ts:23-25): the configured
    name is matched against /^(.*?)\..+?\..*?$/; a non-empty first group becomes the
    sub-domain and is cut, with its dot, from the front of the configured name. */
module DomainName {
  import opened JsValues
  import opened JsStrings

  /** The pattern can match with its lazy group ending at `i`: a dot at `i`, then at
      least one character, a further dot, and anything after it. */
  predicate SplitsAt(name: string, i: int) {
    0 <= i < |name| && name[i] == '.' && exists j :: i + 2 <= j < |name| && name[j] == '.'
  }

  /** The lazy group `(.*?)` tries its end positions from `i` upwards and keeps the first
      one after which the rest of the pattern matches. */
  function LazyGroupEnd(name: string, i: nat): (r: Option<nat>)
    requires i <= |name|
    ensures r.Some? ==> i <= r.value && SplitsAt(name, r.value)
    ensures r.Some? ==> forall k :: i <= k < r.value ==> !SplitsAt(name, k)
    ensures r.None? ==> forall k :: i <= k < |name| ==> !SplitsAt(name, k)
    decreases |name| - i
  {
    if i == |name| then None
    else if SplitsAt(name, i) then Some(i)
    else LazyGroupEnd(name, i + 1)
  }

  /** Where group 1 of the match ends, or `None` when the match gives `null`. Every
      character of the name is consumed by `.` or `\.`, so one line terminator anywhere
      rules the match out. */
  function MatchEnd(name: string): (r: Option<nat>)
    ensures r.Some? ==> NoLineTerminator(name) && SplitsAt(name, r.value)
    ensures r.Some? ==> forall k :: 0 <= k < r.value ==> !SplitsAt(name, k)
    ensures r.None? <==> !NoLineTerminator(name) || forall k :: 0 <= k < |name| ==> !SplitsAt(name, k)
  {
    if NoLineTerminator(name) then LazyGroupEnd(name, 0) else None
  }

  /** main.ts:23, `(match || '')[1] || ''`: the first group, or "" when there is no match. */
  function SubDomainOf(name: string): (sub: string)
    ensures !NoLineTerminator(name) ==> sub == ""
    ensures sub != "" ==> |sub| < |name| && name[..|sub|] == sub && name[|sub|] == '.'
    ensures '.' !in sub
  {
    match MatchEnd(name)
    case None => ""
    case Some(i) =>
      assert '.' !in name[..i] by {
        var j :| i + 2 <= j < |name| && name[j] == '.';
        forall k | 0 <= k < i ensures name[k] != '.' {
          assert !SplitsAt(name, k);
        }
      }
      name[..i]
  }

  /** main.ts:25: the configured name once `if (subDomain)` has cut the sub-domain off. */
  function BaseNameOf(name: string): (base: string)
    ensures SubDomainOf(name) != "" ==> SubDomainOf(name) + "." + base == name
    ensures SubDomainOf(name) == "" ==> base == name
  {
    var sub := SubDomainOf(name);
    if sub != "" then
      assert name == name[..|sub|] + [name[|sub|]] + name[|sub| + 1..];
      name[|sub| + 1..]
    else name
  }

  /** Two separators at different places give at least three pieces. */
  lemma TwoDotsThreeLabels(name: string, i: int, j: int)
    requires 0 <= i < j < |name| && name[i] == '.' && name[j] == '.'
    ensures |Split(name, '.')| >= 3
  {
    var first := IndexOf(name, '.');
    SplitAtFirst(name, '.');
    assert first <= i;
    var rest := name[first + 1..];
    assert rest[j - first - 1] == '.';
    SplitAtFirst(rest, '.');
  }

  /** Whenever there is a sub-domain it is the first dot-separated label, and putting it
      back in front of the rewritten name, with a dot, gives the configured name. */
  lemma SubDomainIsFirstLabel(name: string)
    requires SubDomainOf(name) != ""
    ensures SubDomainOf(name) == Split(name, '.')[0]
    ensures SubDomainOf(name) + "." + BaseNameOf(name) == name
    ensures Split(BaseNameOf(name), '.') == Split(name, '.')[1..]
  {
    var sub := SubDomainOf(name);
    assert '.' in name by { assert name[|sub|] == '.'; }
    var first := IndexOf(name, '.');
    assert first == |sub|;
    SplitAtFirst(name, '.');
    assert BaseNameOf(name) == name[first + 1..];
  }

  /** A name of three or more labels whose first two are non-empty (and without line
      terminators) loses its first label to the sub-domain. */
  lemma ThreeLabelsSplit(name: string)
    requires NoLineTerminator(name)
    requires |Split(name, '.')| >= 3
    requires Split(name, '.')[0] != "" && Split(name, '.')[1] != ""
    ensures SubDomainOf(name) == Split(name, '.')[0]
    ensures BaseNameOf(name) == name[|Split(name, '.')[0]| + 1..]
    ensures SubDomainOf(name) + "." + BaseNameOf(name) == name
    ensures Split(BaseNameOf(name), '.') == Split(name, '.')[1..]
  {
    var labels := Split(name, '.');
    if '.' !in name {
      SplitWithoutSeparator(name, '.');
      assert false;
    }
    var first := IndexOf(name, '.');
    SplitAtFirst(name, '.');
    var rest := name[first + 1..];
    assert Split(rest, '.') == labels[1..];
    if '.' !in rest {
      SplitWithoutSeparator(rest, '.');
      assert false;
    }
    var second := IndexOf(rest, '.');
    SplitAtFirst(rest, '.');
    assert rest[..second] == labels[1];
    assert name[first + 1 + second] == '.';
    assert SplitsAt(name, first);
    var m := LazyGroupEnd(name, 0);
    assert m.Some? && m.value <= first;
    assert m.value == first;
    SubDomainIsFirstLabel(name);
  }

  /** A name of one or two labels has no sub-domain and keeps its value. */
  lemma FewLabelsUnchanged(name: string)
    requires |Split(name, '.')| < 3
    ensures SubDomainOf(name) == ""
    ensures BaseNameOf(name) == name
  {
    if MatchEnd(name).Some? {
      var i := MatchEnd(name).value;
      var j :| i + 2 <= j < |name| && name[j] == '.';
      TwoDotsThreeLabels(name, i, j);
    }
  }
}
