/**
 The rest of Format (src/filesystem_lifecycle.cpp): the directories home,
 home/root and etc, and the three account files.
 */
module FormatTree {
  import opened Disk
  import opened Allocator
  import opened Tree
  import opened MakeDirectory
  import opened FileData
  import opened CreateFile
  import opened FreshChain
  import opened Repair
  import opened SteadyState
  import opened Runs
  import opened Formatting
  import opened Permissions
  import opened Room
  import opened SmallDirs

  /** The account buffer of Format, and the modes it sets: 0660. */
  const ACCOUNT_BUFFER: int := 1000
  const OWNER_AND_GROUP: nat := 432

  const PASSWORDS: string := "root:root\n"
  const GROUPS_TEXT: string := "root::0:root\nuser::1:\n"

  /** sprintf into the buffer: the text, its end, and whatever the buffer held after that. */
  function Sprintf(buf: seq<char>, text: string): (r: seq<char>)
    requires |text| < |buf|
    ensures |r| == |buf|
  {
    text + ['\0'] + buf[|text| + 1..]
  }

  lemma SprintfText(buf: seq<char>, text: string)
    requires |buf| == ACCOUNT_BUFFER && '\0' !in text && 0 < |text| < BLOCK_SIZE
    ensures
      var r := Sprintf(buf, text);
      && TextBuffer(r) && StrLen(r) == |text| && r[..|text|] == text
      && !LeavesJunk(|text|) && TextNeeds(|text|) == 1
  {
    assert Sprintf(buf, text) == text + (['\0'] + buf[|text| + 1..]);
    StrLenPadded(text, ['\0'] + buf[|text| + 1..]);
  }

  /** Where Format puts what it makes. */
  datatype Layout = Layout(home: int, root: int, etc: int, user: int, passwd: int, group: int)

  /** The formatted tree, node by node; `users` is the line printed into etc/user. */
  function FormatNodes(who: Session, users: string, at: Layout): map<int, View> {
    var open, file := Attr(DIR_MODE, who.user, who.group), Attr(FILE_MODE, who.user, who.group);
    map[ROOT := DirView(open, Padded([Entry(".", ROOT), Entry("home", at.home), Entry("etc", at.etc)])),
        at.home := DirView(open, Padded([Entry(".", at.home), Entry("..", ROOT), Entry("root", at.root)])),
        at.root := DirView(open.(mode := 512 + OWNER_AND_GROUP), Padded([Entry(".", at.root), Entry("..", at.home)])),
        at.etc := DirView(open, Padded([Entry(".", at.etc), Entry("..", ROOT), Entry("user", at.user),
                                        Entry("passwd", at.passwd), Entry("group", at.group)])),
        at.user := FileView(file, users),
        at.passwd := FileView(file.(mode := OWNER_AND_GROUP), PASSWORDS),
        at.group := FileView(file, GROUPS_TEXT)]
  }

  /** With home and home/root. */
  function HomeNodes(who: Session, home: int, root: int): map<int, View> {
    var open := Attr(DIR_MODE, who.user, who.group);
    map[ROOT := DirView(open, Padded([Entry(".", ROOT), Entry("home", home)])),
        home := DirView(open, Padded([Entry(".", home), Entry("..", ROOT), Entry("root", root)])),
        root := DirView(open.(mode := 512 + OWNER_AND_GROUP), Padded([Entry(".", root), Entry("..", home)]))]
  }

  /** With etc, still empty. */
  function EtcNodes(who: Session, home: int, root: int, etc: int): map<int, View> {
    var open := Attr(DIR_MODE, who.user, who.group);
    HomeNodes(who, home, root)[ROOT := DirView(open, Padded([Entry(".", ROOT), Entry("home", home)] + [Entry("etc", etc)]))]
                              [etc := DirView(open, Padded([Entry(".", etc), Entry("..", ROOT)]))]
  }

  lemma EtcShown(who: Session, home: int, root: int, etc: int)
    requires ROOT != home && ROOT != root && home != root && etc !in {ROOT, home, root}
    ensures DirShown(EtcNodes(who, home, root, etc), etc, Attr(DIR_MODE, who.user, who.group), [Entry(".", etc), Entry("..", ROOT)])
    ensures EtcNodes(who, home, root, etc).Keys == {ROOT, home, root, etc}
    ensures
      var nodes := EtcNodes(who, home, root, etc);
      && nodes[ROOT] == DirView(Attr(DIR_MODE, who.user, who.group), Padded([Entry(".", ROOT), Entry("home", home)] + [Entry("etc", etc)]))
      && nodes[home] == HomeNodes(who, home, root)[home] && nodes[root] == HomeNodes(who, home, root)[root]
  {
    hide Padded;
  }

  lemma HomeDone(who: Session, home: int, root: int, nodes: map<int, View>)
    requires ROOT != home && ROOT != root && home != root && nodes.Keys == {ROOT, home, root}
    requires
      var open := Attr(DIR_MODE, who.user, who.group);
      && nodes[ROOT] == DirView(open, Padded([Entry(".", ROOT)] + [Entry("home", home)]))
      && nodes[home] == DirView(open, Padded([Entry(".", home), Entry("..", ROOT)] + [Entry("root", root)]))
      && nodes[root] == Permitted(DirView(open, Padded([Entry(".", root), Entry("..", home)])), OWNER_AND_GROUP)
    ensures nodes == HomeNodes(who, home, root)
  {
    hide Padded, WithPermissions;
    Closed(who);
    assert [Entry(".", ROOT)] + [Entry("home", home)] == [Entry(".", ROOT), Entry("home", home)];
    assert [Entry(".", home), Entry("..", ROOT)] + [Entry("root", root)] == [Entry(".", home), Entry("..", ROOT), Entry("root", root)];
  }

  lemma AccountsDone(who: Session, users: string, at: Layout, nodes: map<int, View>)
    requires ROOT != at.home && ROOT != at.root && at.home != at.root
    requires at.etc !in {ROOT, at.home, at.root} && at.user !in {ROOT, at.home, at.root, at.etc}
    requires at.passwd !in {ROOT, at.home, at.root, at.etc, at.user}
    requires at.group !in {ROOT, at.home, at.root, at.etc, at.user, at.passwd}
    requires nodes.Keys == {ROOT, at.home, at.root, at.etc, at.user, at.passwd, at.group}
    requires
      var open, file := Attr(DIR_MODE, who.user, who.group), Attr(FILE_MODE, who.user, who.group);
      && nodes[at.home] == HomeNodes(who, at.home, at.root)[at.home] && nodes[at.root] == HomeNodes(who, at.home, at.root)[at.root]
      && nodes[ROOT] == DirView(open, Padded([Entry(".", ROOT), Entry("home", at.home)] + [Entry("etc", at.etc)]))
      && nodes[at.etc] == DirView(open, Padded([Entry(".", at.etc), Entry("..", ROOT)] + [Entry("user", at.user)]
                                               + [Entry("passwd", at.passwd)] + [Entry("group", at.group)]))
      && nodes[at.user] == FileView(file, users)
      && nodes[at.passwd] == Permitted(FileView(file, PASSWORDS), OWNER_AND_GROUP)
      && nodes[at.group] == FileView(file, GROUPS_TEXT)
    ensures nodes == FormatNodes(who, users, at) && |{at.home, at.root, at.etc, at.user, at.passwd, at.group}| == 6
  {
    hide Padded, WithPermissions;
    Closed(who);
    assert [Entry(".", ROOT), Entry("home", at.home)] + [Entry("etc", at.etc)]
        == [Entry(".", ROOT), Entry("home", at.home), Entry("etc", at.etc)];
    assert [Entry(".", at.etc), Entry("..", ROOT)] + [Entry("user", at.user)] + [Entry("passwd", at.passwd)] + [Entry("group", at.group)]
        == [Entry(".", at.etc), Entry("..", ROOT), Entry("user", at.user), Entry("passwd", at.passwd), Entry("group", at.group)];
  }

  /** The root alone. */
  function RootNodes(who: Session): map<int, View> {
    map[ROOT := DirView(Attr(DIR_MODE, who.user, who.group), Padded([Entry(".", ROOT)]))]
  }

  lemma RootShows(s: State, who: Session)
    requires Blank(s) && |s.super.stack| == GROUP
    ensures Shows(WithRoot(s, who), RootCert(FreshBlock(0)), RootNodes(who))
    ensures WithRoot(s, who).super.freeBlocks == BLOCK_NUM - 1 && WithRoot(s, who).super.freeInodes == INODE_NUM - 1
  {
    hide Blank, Sound, LeakFree, WithRoot, FreshBlock;
    RootSound(s, who);
    assert Padded([Entry(".", ROOT)]) == [Entry(".", ROOT)] + seq(SLOTS - 1, _ => HOLE);
  }

  /** The formatted disk has room left. */
  ghost predicate Formatted(s: State, c: Cert, who: Session, users: string, at: Layout) {
    match at
    case Layout(home, root, etc, user, passwd, group) =>
      && ROOT !in {home, root, etc, user, passwd, group} && |{home, root, etc, user, passwd, group}| == 6
      && Shows(s, c, FormatNodes(who, users, at))
      && s.super.freeBlocks == BLOCK_NUM - 7 && s.super.freeInodes == INODE_NUM - 7
  }

  lemma Closed(who: Session)
    ensures WithPermissions(DIR_MODE, OWNER_AND_GROUP) == 512 + OWNER_AND_GROUP
    ensures WithPermissions(FILE_MODE, OWNER_AND_GROUP) == OWNER_AND_GROUP
  {
    hide WithPermissions;
    PermissionsReplaced(DIR_MODE, OWNER_AND_GROUP);
    PermissionsReplaced(FILE_MODE, OWNER_AND_GROUP);
  }
}
