/**
 * The fixed layout of the 18-page report: which file names fill which page,
 * and the caption each directional page carries.
 */
module Registry {
  import opened Wrappers
  import opened Text

  datatype Device = Launcher | Receiver

  /** Pages 1 to 9: the full view, then East, Northeast, North, Northwest, West, Southwest, South, Southeast. */
  const LauncherOrder: seq<seq<string>> := [
    ["launcher.jpg"],
    ["launcher east.jpg", "launcher e.jpg", "launch e.jpg", "le.jpg"],
    ["launcher northeast.jpg", "launcher ne.jpg", "launch ne.jpg", "lne.jpg"],
    ["launcher north.jpg", "launcher n.jpg", "launch n.jpg", "ln.jpg"],
    ["launcher northwest.jpg", "launcher nw.jpg", "launch nw.jpg", "lnw.jpg"],
    ["launcher west.jpg", "launcher w.jpg", "launch w.jpg", "lw.jpg"],
    ["launcher southwest.jpg", "launcher sw.jpg", "launch sw.jpg", "lsw.jpg"],
    ["launcher south.jpg", "launcher s.jpg", "launch s.jpg", "ls.jpg"],
    ["launcher southeast.jpg", "launcher se.jpg", "launch se.jpg", "lse.jpg"]
  ]

  /** Pages 10 to 18, in the same direction order as the launcher pages. */
  const ReceiverOrder: seq<seq<string>> := [
    ["receiver.jpg"],
    ["receiver east.jpg", "receiver e.jpg", "re.jpg"],
    ["receiver northeast.jpg", "receiver ne.jpg", "rne.jpg"],
    ["receiver north.jpg", "receiver n.jpg", "rn.jpg"],
    ["receiver northwest.jpg", "receiver nw.jpg", "rnw.jpg"],
    ["receiver west.jpg", "receiver w.jpg", "rw.jpg"],
    ["receiver southwest.jpg", "receiver sw.jpg", "rsw.jpg"],
    ["receiver south.jpg", "receiver s.jpg", "rs.jpg"],
    ["receiver southeast.jpg", "receiver se.jpg", "rse.jpg"]
  ]

  const PageCount: nat := 18

  /** The direction words the captions of pages 2-9 (and 11-18) are expected to show. */
  const Compass: seq<string> := ["East", "Northeast", "North", "Northwest", "West", "Southwest", "South", "Southeast"]

  /** The same directions as they are spelled in the first alias of each directional entry. */
  const Directions: seq<string> := ["east", "northeast", "north", "northwest", "west", "southwest", "south", "southeast"]

  function Order(d: Device): seq<seq<string>>
  {
    match d
    case Launcher => LauncherOrder
    case Receiver => ReceiverOrder
  }

  /** The `start` of the `enumerate` that walks a device's table. */
  function FirstPage(d: Device): nat
  {
    match d
    case Launcher => 1
    case Receiver => 10
  }

  /** The word the caption of a directional page starts with. */
  function DeviceName(d: Device): string
  {
    match d
    case Launcher => "Launcher"
    case Receiver => "Receiver"
  }

  predicate IsPage(page: int) { 1 <= page <= PageCount }

  function DeviceOf(page: int): (d: Device)
    requires IsPage(page)
    ensures FirstPage(d) <= page < FirstPage(d) + |Order(d)|
  {
    if page <= 9 then Launcher else Receiver
  }

  /** The accepted file names of a page: the entry of its device's table at its position. */
  function AllowedNames(page: int): (names: seq<string>)
    requires IsPage(page)
    ensures names != []
  {
    var d := DeviceOf(page);
    Order(d)[page - FirstPage(d)]
  }

  /** Entry `i` of device `d`'s table is page `FirstPage(d) + i`. */
  lemma SlotOfDevice(d: Device, i: int)
    requires 0 <= i < |Order(d)|
    ensures IsPage(FirstPage(d) + i) && DeviceOf(FirstPage(d) + i) == d
    ensures AllowedNames(FirstPage(d) + i) == Order(d)[i]
  {
  }

  /** Pages 1 and 10 show a device's full view; every other page is directional. */
  predicate IsFullView(page: int) { page == 1 || page == 10 }

  lemma FullViewIsFirstOfDevice(page: int)
    requires IsPage(page)
    ensures IsFullView(page) <==> page == FirstPage(DeviceOf(page))
  {
  }

  /**
   * The caption word of a directional page,
   * `allowed_names[0].split()[1].replace('.jpg', '').capitalize()`;
   * None where Python would raise IndexError.
   */
  function DirectionWord(allowed: seq<string>): (r: Option<string>)
    ensures r.Some? ==> allowed != [] && |Words(allowed[0])| >= 2
  {
    if allowed == [] then None
    else
      var ws := Words(allowed[0]);
      if |ws| < 2 then None else Some(Capitalize(RemoveJpg(ws[1])))
  }

  /** For a first alias of the shape "<device> <direction>.jpg" the caption word is the capitalized direction. */
  lemma DirectionWordOf(allowed: seq<string>, device: string, dir: string)
    requires allowed != [] && allowed[0] == device + " " + dir + Jpg
    requires IsLowerWord(device) && IsLowerWord(dir)
    ensures DirectionWord(allowed) == Some(Capitalize(dir))
  {
    assert allowed[0] == device + " " + (dir + Jpg);
    assert HasNoSpace(dir + Jpg) by {
      forall i | 0 <= i < |dir + Jpg| ensures !IsSpace((dir + Jpg)[i]) {
        if i >= |dir| { assert (dir + Jpg)[i] == Jpg[i - |dir|]; }
      }
    }
    WordsOfTwo(device, dir + Jpg);
    RemoveJpgSuffix(dir);
  }

  /** The first alias of directional entry `i` of a table is "<device> <direction>.jpg". */
  lemma LauncherFirstAlias(i: int)
    requires 1 <= i < 9
    ensures LauncherOrder[i][0] == "launcher" + " " + Directions[i - 1] + Jpg
  {
  }

  lemma ReceiverFirstAlias(i: int)
    requires 1 <= i < 9
    ensures ReceiverOrder[i][0] == "receiver" + " " + Directions[i - 1] + Jpg
  {
  }

  lemma DirectionsAreLowerCompass(k: int)
    requires 0 <= k < |Compass|
    ensures Lower(Compass[k]) == Directions[k]
  {
  }

  /** Each direction word capitalizes to the caption word of the same index. */
  lemma CompassCapitalized(k: int)
    requires 0 <= k < |Compass|
    ensures IsLowerWord(Directions[k])
    ensures Capitalize(Directions[k]) == Compass[k]
  {
    var w := Compass[k];
    var tail := w[1..];
    assert IsUpper(w[0]);
    assert forall c :: c in tail ==> IsLower(c);
    forall j | 1 <= j < |w| ensures IsLower(w[j]) {
      assert w[j] == tail[j - 1];
      assert tail[j - 1] in tail;
    }
    CapitalizeUndoesLower(w);
    DirectionsAreLowerCompass(k);
  }

  /** The direction word a page's caption carries, when the tables give it one. */
  function CompassOf(page: int): string
    requires IsPage(page) && !IsFullView(page)
  {
    Compass[page - FirstPage(DeviceOf(page)) - 1]
  }

  /**
   * Every directional page has a caption word, and it is the page's compass
   * direction: page 3 says "Northeast", page 13 "North".
   */
  lemma DirectionWordOfPage(page: int)
    requires IsPage(page) && !IsFullView(page)
    ensures DirectionWord(AllowedNames(page)) == Some(CompassOf(page))
  {
    var d := DeviceOf(page);
    var i := page - FirstPage(d);
    assert AllowedNames(page) == Order(d)[i] && CompassOf(page) == Compass[i - 1];
    DirectionWordOfSlot(d, i);
  }

  lemma DirectionWordOfSlot(d: Device, i: int)
    requires 1 <= i < 9
    ensures DirectionWord(Order(d)[i]) == Some(Compass[i - 1])
  {
    if d == Launcher {
      LauncherFirstAlias(i);
      DirectionWordOfEntry(LauncherOrder[i], "launcher", i - 1);
    } else {
      ReceiverFirstAlias(i);
      DirectionWordOfEntry(ReceiverOrder[i], "receiver", i - 1);
    }
  }

  /** An alias list headed by "<device> <direction k>.jpg" yields caption word `k`. */
  lemma DirectionWordOfEntry(allowed: seq<string>, device: string, k: int)
    requires 0 <= k < |Compass|
    requires allowed != [] && allowed[0] == device + " " + Directions[k] + Jpg
    requires IsLowerWord(device)
    ensures DirectionWord(allowed) == Some(Compass[k])
  {
    CompassCapitalized(k);
    DirectionWordOf(allowed, device, Directions[k]);
  }

  lemma LauncherAliasHasNoUpper(i: int, a: int)
    requires 0 <= i < 9 && 0 <= a < |LauncherOrder[i]|
    ensures HasNoUpper(LauncherOrder[i][a])
  {
    var s := LauncherOrder[i][a];
    assert forall c :: c in s ==> !IsUpper(c);
    forall k | 0 <= k < |s| ensures !IsUpper(s[k]) {
      assert s[k] in s;
    }
  }

  lemma ReceiverAliasHasNoUpper(i: int, a: int)
    requires 0 <= i < 9 && 0 <= a < |ReceiverOrder[i]|
    ensures HasNoUpper(ReceiverOrder[i][a])
  {
    var s := ReceiverOrder[i][a];
    assert forall c :: c in s ==> !IsUpper(c);
    forall k | 0 <= k < |s| ensures !IsUpper(s[k]) {
      assert s[k] in s;
    }
  }

  /** The tables are written in lower case, so lower-casing them changes nothing. */
  lemma AllowedNamesAreLowerCase(page: int)
    requires IsPage(page)
    ensures LowerAll(AllowedNames(page)) == AllowedNames(page)
  {
    var d := DeviceOf(page);
    var names := AllowedNames(page);
    forall a | 0 <= a < |names| ensures HasNoUpper(names[a]) {
      if d == Launcher {
        LauncherAliasHasNoUpper(page - 1, a);
      } else {
        ReceiverAliasHasNoUpper(page - 10, a);
      }
    }
    LowerAllFixesLowerCase(names);
  }

  lemma LauncherAliasesDisjoint(i: int, j: int, a: int, b: int)
    requires 0 <= i < j < 9 && 0 <= a < |LauncherOrder[i]| && 0 <= b < |LauncherOrder[j]|
    ensures LauncherOrder[i][a] != LauncherOrder[j][b]
  {
  }

  lemma ReceiverAliasesDisjoint(i: int, j: int, a: int, b: int)
    requires 0 <= i < j < 9 && 0 <= a < |ReceiverOrder[i]| && 0 <= b < |ReceiverOrder[j]|
    ensures ReceiverOrder[i][a] != ReceiverOrder[j][b]
  {
  }

  lemma DevicesDisjoint(i: int, j: int, a: int, b: int)
    requires 0 <= i < 9 && 0 <= j < 9 && 0 <= a < |LauncherOrder[i]| && 0 <= b < |ReceiverOrder[j]|
    ensures LauncherOrder[i][a][0] == 'l' && ReceiverOrder[j][b][0] == 'r'
  {
  }

  lemma AliasesDisjointAt(p: int, q: int, a: int, b: int)
    requires IsPage(p) && IsPage(q) && p < q
    requires 0 <= a < |AllowedNames(p)| && 0 <= b < |AllowedNames(q)|
    ensures AllowedNames(p)[a] != AllowedNames(q)[b]
  {
    if q <= 9 {
      LauncherAliasesDisjoint(p - 1, q - 1, a, b);
    } else if p > 9 {
      ReceiverAliasesDisjoint(p - 10, q - 10, a, b);
    } else {
      DevicesDisjoint(p - 1, q - 10, a, b);
    }
  }

  /** No file name is accepted by two different pages. */
  lemma AliasesDisjoint(p: int, q: int, name: string)
    requires IsPage(p) && IsPage(q) && p != q
    requires name in AllowedNames(p)
    ensures name !in AllowedNames(q)
  {
    var np, nq := AllowedNames(p), AllowedNames(q);
    if name in nq {
      var a :| 0 <= a < |np| && np[a] == name;
      var b :| 0 <= b < |nq| && nq[b] == name;
      if p < q { AliasesDisjointAt(p, q, a, b); } else { AliasesDisjointAt(q, p, b, a); }
    }
  }
}
