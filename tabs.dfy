/**
 * The tab records the sorter works on, and `getFilteredTabs`
 * (ai-tabs.uc.js:126-153), which picks the tabs of one workspace that are
 * eligible for sorting.
 */
module Tabs {
  import opened Common
  import opened JsText

  /**
   * What the sorter reads from a `<tab>` element. `id` stands for the element's
   * identity; `title` is what `getTabTitle` returns for it; `grouped` is whether
   * the tab sits inside a `tab-group`.
   */
  datatype Tab = Tab(
    id: nat,
    title: String,
    connected: bool,
    workspace: String,
    pinned: bool,
    grouped: bool,
    selected: bool,
    emptyTab: bool,
    glance: bool)

  /** The destructured `options` of getFilteredTabs. */
  datatype FilterOptions = FilterOptions(
    includeGrouped: bool,
    includeSelected: bool,
    includePinned: bool,
    includeEmpty: bool,
    includeGlance: bool)

  /** The defaults that apply when a caller passes no options (ai-tabs.uc.js:130-136). */
  const DefaultOptions := FilterOptions(false, true, false, false, false)

  /** A topic decision for one tab, as `askAIForMultipleTopics` returns it. */
  datatype Assignment = Assignment(tab: Tab, topic: String)

  /** The body of the filter callback. */
  predicate Keep(t: Tab, workspaceId: String, o: FilterOptions) {
    && t.connected
    && t.workspace == workspaceId
    && (o.includePinned || !t.pinned)
    && (o.includeGrouped || !t.grouped)
    && (o.includeSelected || !t.selected)
    && (o.includeEmpty || !t.emptyTab)
    && (o.includeGlance || !t.glance)
  }

  /** `getFilteredTabs(workspaceId, options)`; an empty workspace id is falsy and gives no tabs. */
  function FilteredTabs(tabs: seq<Tab>, workspaceId: String, o: FilterOptions): (r: seq<Tab>)
    ensures workspaceId == [] ==> r == []
    ensures forall k :: 0 <= k < |r| ==> Keep(r[k], workspaceId, o)
  {
    if workspaceId == [] then [] else Filter(tabs, t => Keep(t, workspaceId, o))
  }

  /** For a non-empty workspace id every eligible tab is kept, as often as it occurs, and in order. */
  lemma FilteredTabsCount(tabs: seq<Tab>, more: seq<Tab>, workspaceId: String, o: FilterOptions)
    requires workspaceId != []
    ensures forall t :: multiset(FilteredTabs(tabs, workspaceId, o))[t] ==
                        if Keep(t, workspaceId, o) then multiset(tabs)[t] else 0
    ensures FilteredTabs(tabs + more, workspaceId, o) == FilteredTabs(tabs, workspaceId, o) + FilteredTabs(more, workspaceId, o)
  {
    FilterCount(tabs, t => Keep(t, workspaceId, o));
    FilterAppend(tabs, more, t => Keep(t, workspaceId, o));
  }

  /**
   * With the default options a tab is sorted exactly when it is connected, in
   * the workspace, and neither pinned, grouped, empty nor a glance tab; the
   * selected tab is included.
   */
  lemma DefaultFilter(tabs: seq<Tab>, workspaceId: String, t: Tab)
    requires workspaceId != []
    ensures t in FilteredTabs(tabs, workspaceId, DefaultOptions) <==>
      t in tabs && t.connected && t.workspace == workspaceId
      && !t.pinned && !t.grouped && !t.emptyTab && !t.glance
  {
    var r := FilteredTabs(tabs, workspaceId, DefaultOptions);
    FilteredTabsCount(tabs, [], workspaceId, DefaultOptions);
    assert t in r <==> multiset(r)[t] > 0;
    assert t in tabs <==> multiset(tabs)[t] > 0;
  }

  /** `tabs.filter((t) => t && t.isConnected)`: the connected tabs, in order. */
  function Connected(tabs: seq<Tab>): seq<Tab> {
    Filter(tabs, (t: Tab) => t.connected)
  }

  /** The tab of each assignment, in order. */
  function TabsOf(assignments: seq<Assignment>): (r: seq<Tab>)
    ensures |r| == |assignments|
  {
    seq(|assignments|, p requires 0 <= p < |assignments| => assignments[p].tab)
  }
}
