/** The citation list under the results (components/Sources.tsx): only sources with both a
    link and a title are shown, and nothing at all is rendered when none is left. */
module SourcesView {
  import opened Wrappers
  import opened Types
  import Seqs

  /** `s.web?.uri && s.web?.title`: both present and non-empty. */
  predicate IsCitable(s: Source)
  {
    s.web.Some?
    && s.web.value.uri.Some? && s.web.value.uri.value != ""
    && s.web.value.title.Some? && s.web.value.title.value != ""
  }

  /** `sources?.filter(...)`: absent stays absent; otherwise the citable sources in order. */
  function ValidSources(sources: Option<seq<Source>>): (r: Option<seq<Source>>)
    ensures r.Some? <==> sources.Some?
    ensures r.Some? ==> |r.value| <= |sources.value|
    ensures r.Some? ==> forall k :: 0 <= k < |r.value| ==> IsCitable(r.value[k]) && r.value[k] in sources.value
    ensures r.Some? ==> forall k :: 0 <= k < |sources.value| && IsCitable(sources.value[k]) ==> sources.value[k] in r.value
  {
    match sources
    case None => None
    case Some(ss) => Some(Seqs.Filter(IsCitable, ss))
  }

  /** The filter keeps the order: the valid sources of a concatenation are those of each part. */
  lemma ValidSourcesAppend(a: seq<Source>, b: seq<Source>)
    ensures ValidSources(Some(a + b)) == Some(ValidSources(Some(a)).value + ValidSources(Some(b)).value)
  {
    Seqs.FilterAppend(IsCitable, a, b);
  }

  /** One rendered entry: the link target and its text. */
  datatype Link = Link(uri: string, title: string)

  /** `source.web!.uri` and `source.web!.title`; the precondition is what makes the
      non-null assertions safe. */
  function LinkOf(s: Source): (l: Link)
    requires IsCitable(s)
    ensures l.uri != "" && l.title != ""
  {
    Link(s.web.value.uri.value, s.web.value.title.value)
  }

  /** What the component renders: None for `return null`, otherwise the links in order. */
  function Rendered(sources: Option<seq<Source>>): (r: Option<seq<Link>>)
    ensures sources.None? ==> r.None?
    ensures r.Some? ==> |r.value| == |ValidSources(sources).value| > 0
    ensures r.Some? ==> forall k :: 0 <= k < |r.value| ==> r.value[k] == LinkOf(ValidSources(sources).value[k])
  {
    var valid := ValidSources(sources);
    if valid.None? || |valid.value| == 0 then None
    else Some(seq(|valid.value|, k requires 0 <= k < |valid.value| => LinkOf(valid.value[k])))
  }

  /** Nothing is rendered exactly when there are no sources or none of them is citable. */
  lemma RenderedNothingIff(sources: Option<seq<Source>>)
    ensures Rendered(sources).None? <==>
      sources.None? || forall k :: 0 <= k < |sources.value| ==> !IsCitable(sources.value[k])
  {
    var valid := ValidSources(sources);
    if sources.Some? {
      if |valid.value| > 0 {
        assert valid.value[0] in sources.value;
        var k :| 0 <= k < |sources.value| && sources.value[k] == valid.value[0];
        assert IsCitable(sources.value[k]);
      }
    }
  }

  /** Every rendered entry has a non-empty link and title. */
  lemma RenderedLinksComplete(sources: Option<seq<Source>>)
    ensures Rendered(sources).Some? ==>
      forall k :: 0 <= k < |Rendered(sources).value| ==>
        Rendered(sources).value[k].uri != "" && Rendered(sources).value[k].title != ""
  {
  }
}
