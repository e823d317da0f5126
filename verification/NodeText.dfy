/**
  Texts of merged nodes: the description of an absorbed node is appended to that of the surviving one,
  and keywords that are not there yet are appended in order.
*/
module NodeText {
  import opened Knowledge
  import opened Ordering

  // ---------------------------------------------------------------- keywords

  /** The keywords of `more` that are not there yet, appended in order. */
  function AppendMissing(keywords: seq<string>, more: seq<string>): (r: seq<string>)
    ensures keywords <= r
    ensures forall w :: w in r <==> w in keywords || w in more
  {
    if more == [] then keywords
    else
      var before, last := AppendMissing(keywords, more[..|more| - 1]), more[|more| - 1];
      assert forall w :: w in more <==> w in more[..|more| - 1] || w == last;
      if last in before then before else before + [last]
  }

  /** The keywords that are missing at the start, place by place. */
  function Missing(keywords: seq<string>, more: seq<string>): (keys: seq<Option<string>>)
    ensures |keys| == |more|
    ensures forall j :: 0 <= j < |more| ==> keys[j] == if more[j] in keywords then None else Some(more[j])
  {
    seq(|more|, j requires 0 <= j < |more| => if more[j] in keywords then None else Some(more[j]))
  }

  /** r is the old list followed by the first occurrence of each missing keyword, in their order. */
  ghost predicate Appends(keywords: seq<string>, more: seq<string>, r: seq<string>, origin: seq<nat>) {
    && FirstPositions(Missing(keywords, more), |more|, origin)
    && |r| == |keywords| + |origin| && keywords <= r
    && forall k :: 0 <= k < |origin| ==> r[|keywords| + k] == more[origin[k]]
  }

  ghost predicate KeywordsJoin(keywords: seq<string>, more: seq<string>, r: seq<string>) {
    exists origin :: Appends(keywords, more, r, origin)
  }

  /** The same for the first n of the keywords to append. */
  ghost predicate AppendsFirst(keywords: seq<string>, more: seq<string>, n: nat, r: seq<string>, origin: seq<nat>)
    requires n <= |more|
  {
    && FirstPositions(Missing(keywords, more), n, origin)
    && |r| == |keywords| + |origin| && keywords <= r
    && forall k :: 0 <= k < |origin| ==> r[|keywords| + k] == more[origin[k]]
  }

  lemma {:induction false} AppendMissingFirst(keywords: seq<string>, more: seq<string>, n: nat)
    returns (origin: seq<nat>)
    requires n <= |more|
    ensures AppendsFirst(keywords, more, n, AppendMissing(keywords, more[..n]), origin)
    decreases n
  {
    origin := [];
    if n == 0 {
      assert more[..0] == [];
    } else {
      var before := AppendMissingFirst(keywords, more, n - 1);
      assert more[..n][..n - 1] == more[..n - 1];
      origin := AppendNext(keywords, more, n - 1, AppendMissing(keywords, more[..n - 1]), before);
    }
  }

  lemma AppendNext(keywords: seq<string>, more: seq<string>, n: nat, r: seq<string>, before: seq<nat>)
    returns (origin: seq<nat>)
    requires n < |more| && AppendsFirst(keywords, more, n, r, before)
    ensures AppendsFirst(keywords, more, n + 1, if more[n] in r then r else r + [more[n]], origin)
  {
    var keys := Missing(keywords, more);
    origin := before;
    if more[n] in keywords {
      assert r[..|keywords|] == keywords;
      InPrefix(keywords, r, more[n]);
      FirstPositionsSkip(keys, n, before);
    } else if more[n] in r {
      var k :| 0 <= k < |r| && r[k] == more[n];
      LaterPlace(keywords, r, more[n], k);
      assert keys[before[k - |keywords|]] == keys[n];
      FirstPositionsSkip(keys, n, before);
    } else {
      forall k | 0 <= k < |before| ensures keys[before[k]] != keys[n] {
        assert r[|keywords| + k] in r;
      }
      FirstPositionsTake(keys, n, before);
      origin := before + [n];
    }
  }

  lemma InPrefix(a: seq<string>, b: seq<string>, w: string)
    requires a <= b && w in a
    ensures w in b
  {
    var i :| 0 <= i < |a| && a[i] == w;
    assert b[i] == w;
  }

  lemma LaterPlace(a: seq<string>, b: seq<string>, w: string, k: nat)
    requires a <= b && w !in a && k < |b| && b[k] == w
    ensures k >= |a|
  {
    assert forall j :: 0 <= j < |a| ==> a[j] == b[j] && a[j] != w;
  }

  lemma AppendMissingAppends(keywords: seq<string>, more: seq<string>)
    ensures KeywordsJoin(keywords, more, AppendMissing(keywords, more))
  {
    var origin := AppendMissingFirst(keywords, more, |more|);
    assert more[..|more|] == more;
    assert Appends(keywords, more, AppendMissing(keywords, more), origin);
  }

  // ---------------------------------------------------------------- descriptions

  /** The needle occurs in the text as a contiguous part. */
  predicate Occurs(needle: string, text: string) {
    exists i :: 0 <= i <= |text| && OccursAt(needle, text, i)
  }

  predicate OccursAt(needle: string, text: string, i: nat)
    requires i <= |text|
  {
    needle <= text[i..]
  }

  predicate Padding(c: char) { c == ' ' || c == '|' }

  function StripLeft(s: string): string {
    if s != [] && Padding(s[0]) then StripLeft(s[1..]) else s
  }

  function StripRight(s: string): string {
    if s != [] && Padding(s[|s| - 1]) then StripRight(s[..|s| - 1]) else s
  }

  const MAX_DESCRIPTION := 800

  function Cut(s: string): (r: string)
    ensures r <= s && |r| <= MAX_DESCRIPTION
  {
    if |s| <= MAX_DESCRIPTION then s else s[..MAX_DESCRIPTION]
  }

  function JoinDescriptions(kept: string, merged: string): string {
    if merged != [] && !Occurs(merged, kept)
    then Cut(StripRight(StripLeft(kept + " | " + merged)))
    else kept
  }

  // ---------------------------------------------------------------- what joining does

  ghost predicate Contains(text: string, needle: string) {
    exists before, after :: text == before + needle + after
  }

  lemma OccursIsContained(needle: string, text: string)
    ensures Occurs(needle, text) <==> Contains(text, needle)
  {
    if Occurs(needle, text) {
      var i :| 0 <= i <= |text| && OccursAt(needle, text, i);
      assert text == text[..i] + needle + text[i..][|needle|..];
    }
    if Contains(text, needle) {
      var before, after :| text == before + needle + after;
      assert text[|before|..] == needle + after;
      assert OccursAt(needle, text, |before|);
    }
  }

  ghost predicate AllPadding(s: string) {
    forall i :: 0 <= i < |s| ==> s[i] in {' ', '|'}
  }

  /** No blank and no bar at either end. */
  ghost predicate Trimmed(s: string) {
    s != "" ==> s[0] !in {' ', '|'} && s[|s| - 1] !in {' ', '|'}
  }

  /** core is what is left of the text without the padding at its ends. */
  ghost predicate Strips(text: string, lead: string, core: string, trail: string) {
    text == lead + core + trail && AllPadding(lead) && AllPadding(trail) && Trimmed(core)
  }

  /** r is the first 800 characters of the core. */
  ghost predicate IsCut(core: string, r: string) {
    r == if |core| <= 800 then core else core[..800]
  }

  /** The two texts with a bar between them, without padding at the ends, cut. */
  ghost predicate IsJoined(kept: string, merged: string, r: string) {
    exists lead, core, trail :: Strips(kept + " | " + merged, lead, core, trail) && IsCut(core, r)
  }

  /** What absorbing a description does: nothing if it is empty or already occurs, otherwise it is appended. */
  ghost predicate DescriptionsJoin(kept: string, merged: string, r: string) {
    if merged == "" || Contains(kept, merged) then r == kept else IsJoined(kept, merged, r)
  }

  lemma {:induction false} StripLeftStrips(s: string) returns (lead: string)
    ensures s == lead + StripLeft(s) && AllPadding(lead)
    ensures StripLeft(s) != "" ==> !Padding(StripLeft(s)[0])
    decreases |s|
  {
    lead := "";
    if s != [] && Padding(s[0]) {
      var rest := StripLeftStrips(s[1..]);
      lead := [s[0]] + rest;
    }
  }

  lemma {:induction false} StripRightStrips(s: string) returns (trail: string)
    ensures s == StripRight(s) + trail && AllPadding(trail)
    ensures StripRight(s) != "" ==> !Padding(StripRight(s)[|StripRight(s)| - 1])
    decreases |s|
  {
    trail := "";
    if s != [] && Padding(s[|s| - 1]) {
      var rest := StripRightStrips(s[..|s| - 1]);
      trail := rest + [s[|s| - 1]];
    }
  }

  lemma StripStrips(text: string) returns (lead: string, trail: string)
    ensures Strips(text, lead, StripRight(StripLeft(text)), trail)
  {
    lead := StripLeftStrips(text);
    var rest := StripLeft(text);
    trail := StripRightStrips(rest);
    assert StripRight(rest) != "" ==> StripRight(rest)[0] == rest[0];
  }

  lemma JoinDescriptionsJoins(kept: string, merged: string)
    ensures DescriptionsJoin(kept, merged, JoinDescriptions(kept, merged))
  {
    OccursIsContained(merged, kept);
    var lead, trail := StripStrips(kept + " | " + merged);
    var core := StripRight(StripLeft(kept + " | " + merged));
    assert IsCut(core, Cut(core));
  }

  // ---------------------------------------------------------------- which texts survive

  /** What is stripped shows at the ends of the text. */
  lemma PaddingShows(text: string, lead: string, core: string, trail: string)
    requires Strips(text, lead, core, trail)
    ensures text == "" || text[0] in {' ', '|'} || lead == ""
    ensures text == "" || text[|text| - 1] in {' ', '|'} || trail == ""
  {
    if lead != "" {
      assert text[0] == lead[0];
    }
    if trail != "" {
      assert text[|text| - 1] == trail[|trail| - 1];
    }
  }

  /**
    The surviving text leads the result exactly if it has no leading padding and fits, and if it ends in
    padding only when something else follows.
  */
  lemma OwnTextLeads(kept: string, merged: string, r: string)
    requires IsJoined(kept, merged, r)
    ensures kept <= r <==>
              kept == "" || (|kept| <= 800 && !Padding(kept[0]) && (!Padding(kept[|kept| - 1]) || !AllPadding(merged)))
  {
    var lead, core, trail :| Strips(kept + " | " + merged, lead, core, trail) && IsCut(core, r);
    var text := kept + " | " + merged;
    if kept != "" {
      assert text[0] == kept[0];
      if !Padding(kept[0]) {
        PaddingShows(text, lead, core, trail);
        assert text == core + trail;
        OwnTextInCore(kept, merged, core, trail);
      } else {
        assert r != "" ==> r[0] == core[0];
      }
    }
  }

  lemma OwnTextInCore(kept: string, merged: string, core: string, trail: string)
    requires kept != "" && kept + " | " + merged == core + trail && AllPadding(trail) && Trimmed(core)
    ensures kept <= core <==> !Padding(kept[|kept| - 1]) || !AllPadding(merged)
  {
    var text, n := kept + " | " + merged, |kept|;
    if |core| < n {
      TailIsPadding(text, core, trail, n - 1);
      assert text[n - 1] == kept[n - 1];
      forall i | 0 <= i < |merged| ensures merged[i] in {' ', '|'} {
        TailIsPadding(text, core, trail, n + 3 + i);
        assert text[n + 3 + i] == merged[i];
      }
    } else {
      assert core == text[..|core|] && text[..n] == kept;
      if AllPadding(merged) {
        CoreEnds(kept, merged, core, trail);
      }
    }
  }

  lemma TailIsPadding(text: string, core: string, trail: string, i: nat)
    requires text == core + trail && AllPadding(trail) && |core| <= i < |text|
    ensures text[i] in {' ', '|'}
  {
    assert text[i] == trail[i - |core|];
  }

  lemma PaddingAfter(kept: string, merged: string, i: nat)
    requires AllPadding(merged) && |kept| <= i < |kept + " | " + merged|
    ensures (kept + " | " + merged)[i] in {' ', '|'}
  {
    var text := kept + " | " + merged;
    assert i < |kept| + 3 ==> text[i] == " | "[i - |kept|];
    assert i >= |kept| + 3 ==> text[i] == merged[i - |kept| - 3];
  }

  /** If everything after the surviving text is padding, the core ends inside it. */
  lemma CoreEnds(kept: string, merged: string, core: string, trail: string)
    requires kept + " | " + merged == core + trail && Trimmed(core) && AllPadding(merged)
    requires |core| >= |kept| > 0
    ensures !Padding(kept[|kept| - 1]) && core == kept
  {
    var text, n := kept + " | " + merged, |kept|;
    var last := core[|core| - 1];
    assert last == text[|core| - 1];
    if |core| > n {
      PaddingAfter(kept, merged, |core| - 1);
    }
    assert core == text[..n];
  }

  lemma AppendedInCore(kept: string, merged: string, core: string, trail: string) returns (front: string, pad: string)
    requires kept + " | " + merged == core + trail && AllPadding(trail)
    ensures merged == front + pad && AllPadding(pad) && Contains(core, front)
  {
    var text, n := kept + " | " + merged, |kept| + 3;
    assert text[n..] == merged;
    if |core| < n {
      front, pad := "", merged;
      forall i | 0 <= i < |merged| ensures merged[i] in {' ', '|'} {
        TailIsPadding(text, core, trail, n + i);
        assert text[n + i] == merged[i];
      }
      assert core == "" + "" + core;
    } else {
      front, pad := core[n..], trail;
      assert (core + trail)[n..] == core[n..] + trail;
      assert core == core[..n] + front + "";
    }
  }

  lemma NoLead(kept: string, merged: string, r: string) returns (core: string, trail: string)
    requires IsJoined(kept, merged, r) && kept != "" && !Padding(kept[0])
    ensures kept + " | " + merged == core + trail && AllPadding(trail) && IsCut(core, r)
  {
    var lead;
    lead, core, trail :| Strips(kept + " | " + merged, lead, core, trail) && IsCut(core, r);
    var text := kept + " | " + merged;
    assert text[0] == kept[0];
    PaddingShows(text, lead, core, trail);
    assert text == core + trail;
  }

  /** A text appended to one without leading padding stays, but for padding at its end, unless it is cut. */
  lemma AppendedTextStays(kept: string, merged: string, r: string) returns (front: string, pad: string)
    requires IsJoined(kept, merged, r) && kept != "" && !Padding(kept[0])
    ensures merged == front + pad && AllPadding(pad) && (Contains(r, front) || |r| == 800)
  {
    var core, trail := NoLead(kept, merged, r);
    front, pad := AppendedInCore(kept, merged, core, trail);
  }

  /** Padding is lost: a text that is padding alone does not occur in what it is appended to. */
  lemma PaddingIsLost()
    ensures IsJoined("a", " ", "a") && !Contains("a", " ")
  {
    assert "a" + " | " + " " == "" + "a" + " |  ";
    assert Strips("a" + " | " + " ", "", "a", " |  ") && IsCut("a", "a");
    forall before: string, after: string ensures "a" != before + " " + after {
      assert |before| == 0 && |after| == 0 ==> (before + " " + after)[0] == ' ';
    }
  }

  /** Between trimmed texts joining just puts the bar; the result is cut to 800 characters. */
  lemma TrimmedJoin(kept: string, merged: string, r: string)
    requires IsJoined(kept, merged, r) && kept != "" && !Padding(kept[0]) && merged != "" && Trimmed(merged)
    ensures IsCut(kept + " | " + merged, r)
  {
    var lead, core, trail :| Strips(kept + " | " + merged, lead, core, trail) && IsCut(core, r);
    var text := kept + " | " + merged;
    assert text[0] == kept[0] && text[|text| - 1] == merged[|merged| - 1];
    PaddingShows(text, lead, core, trail);
    assert core == text;
  }

  /** The texts one after the other, with a bar between them. */
  function Glued(texts: seq<string>): string {
    if texts == [] then ""
    else if |texts| == 1 then texts[0]
    else Glued(texts[..|texts| - 1]) + " | " + texts[|texts| - 1]
  }

  lemma GluedNext(texts: seq<string>, text: string)
    requires texts != []
    ensures Glued(texts + [text]) == Glued(texts) + " | " + text
  {
    assert (texts + [text])[..|texts|] == texts;
  }

  lemma {:induction false} GluedStarts(texts: seq<string>)
    requires texts != [] && texts[0] != ""
    ensures Glued(texts) != "" && Glued(texts)[0] == texts[0][0]
    decreases |texts|
  {
    if |texts| > 1 {
      GluedStarts(texts[..|texts| - 1]);
    }
  }

  /** A joined text: the first one alone, or the first 800 characters of all of them. */
  ghost predicate IsGlued(texts: seq<string>, r: string) {
    texts != [] && if |texts| == 1 then r == texts[0] else IsCut(Glued(texts), r)
  }

  /** Appending a trimmed text to a joined one. */
  lemma GluedGrows(texts: seq<string>, kept: string, merged: string, r: string)
    requires IsGlued(texts, kept) && texts[0] != "" && Trimmed(texts[0]) && merged != "" && Trimmed(merged)
    requires IsJoined(kept, merged, r)
    ensures IsGlued(texts + [merged], r)
    ensures kept <= r || |r| == 800
    ensures Contains(r, merged) || |r| == 800
    ensures |kept| == 800 ==> |r| == 800
  {
    GluedStarts(texts);
    GluedNext(texts, merged);
    assert kept != "" && kept[0] == texts[0][0];
    TrimmedJoin(kept, merged, r);
    JoinKeeps(kept, merged, r);
    CutTwice(Glued(texts), kept, merged, r, |texts| == 1);
  }

  lemma JoinKeeps(kept: string, merged: string, r: string)
    requires IsCut(kept + " | " + merged, r)
    ensures kept <= r || |r| == 800
    ensures Contains(r, merged) || |r| == 800
  {
    if |r| != 800 {
      assert r == (kept + " | ") + merged + "";
    }
  }

  lemma CutTwice(glued: string, kept: string, merged: string, r: string, alone: bool)
    requires if alone then kept == glued else IsCut(glued, kept)
    requires IsCut(kept + " | " + merged, r)
    ensures IsCut(glued + " | " + merged, r)
  {
    var whole, uncut := kept + " | " + merged, glued + " | " + merged;
    if !alone && |glued| > 800 {
      assert kept == uncut[..800] == whole[..800];
    }
  }
}
