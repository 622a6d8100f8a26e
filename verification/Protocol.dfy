/** The messages a browser extension streams to the agent (agent/crates/sr-proto/src/lib.rs). */
module Protocol {
  import opened Options

  datatype Op = Upsert | Remove

  datatype TabDelta = TabDelta(
    op: Op, tabKey: string, windowId: string, groupKey: Option<string>, index: Option<int>,
    url: Option<string>, title: Option<string>, faviconHash: Option<string>,
    pinned: bool, active: bool, muted: bool, lastAccessed: Option<int>,
    isPrivate: bool, restorable: bool)

  datatype WindowDelta = WindowDelta(
    op: Op, windowId: string, isPrivate: bool, state: Option<string>,
    x: Option<int>, y: Option<int>, w: Option<int>, h: Option<int>, focused: bool)

  datatype GroupDelta = GroupDelta(
    op: Op, groupKey: string, windowId: string, title: Option<string>, color: Option<string>, collapsed: bool)

  datatype StateBody = StateBody(windows: seq<WindowDelta>, tabs: seq<TabDelta>, groups: seq<GroupDelta>)
}
