/** The values that make up the in-memory document tree of a KDBX database:
    groups, entries, their history snapshots, the metadata and the
    deleted-objects ledger. */
module KdbxTypes {

  datatype Option<+T> = None | Some(value: T)

  /** A KDBX uuid: 16 opaque bytes. */
  type Uuid = s: seq<bv8> | |s| == 16 witness seq(16, _ => 0 as bv8)

  /** The all-zero uuid, which stands for "unset" and never names a node. */
  const EmptyUuid: Uuid := [0, 0, 0, 0, 0, 0, 0, 0, 0, 0, 0, 0, 0, 0, 0, 0]

  /** Key of `meta.customIcons`, as held in an entry's or a group's `customIcon`. */
  type IconId = string

  /** Key of `meta.binaries`, as held in an attachment's `ref`. */
  type BinaryRef = string

  /** A point in time; clocks are outside the model, so times are parameters. */
  type Time = int

  /** A field value is plain text or a protected value (its in-memory
      obfuscation is not part of this model). */
  datatype FieldValue = Plain(text: string) | Protected(secret: string)

  /** An attachment either points into the metadata binary pool or holds its
      bytes inline. */
  datatype Attachment = Ref(ref: BinaryRef) | Inline(data: seq<bv8>)

  /** A history snapshot: the state of an entry without its own history. */
  datatype Snapshot = Snapshot(
    fields: map<string, FieldValue>,
    binaries: map<string, Attachment>,
    customIcon: Option<IconId>)

  datatype Entry = Entry(
    uuid: Uuid,
    fields: map<string, FieldValue>,
    binaries: map<string, Attachment>,
    customIcon: Option<IconId>,
    history: seq<Snapshot>)
  {
    /** The snapshot `pushHistory` takes of this entry. */
    function Current(): Snapshot {
      Snapshot(fields, binaries, customIcon)
    }
  }

  /** A group with its ordered child groups and ordered child entries. */
  datatype Group = Group(
    uuid: Uuid,
    name: string,
    customIcon: Option<IconId>,
    groups: seq<Group>,
    entries: seq<Entry>)

  /** What `remove` and `move` act on: a group (with its subtree) or an entry. */
  datatype Node = GroupNode(group: Group) | EntryNode(entry: Entry)
  {
    function Id(): Uuid {
      match this
      case GroupNode(g) => g.uuid
      case EntryNode(e) => e.uuid
    }
  }

  /** The part of the database metadata that the tree operations and the
      cleanup rules read and write. `historyMaxItems` is `None` when unset. */
  datatype Meta = Meta(
    recycleBinEnabled: bool,
    recycleBinUuid: Uuid,
    historyMaxItems: Option<int>,
    customIcons: map<IconId, seq<bv8>>,
    binaries: map<BinaryRef, seq<bv8>>)

  datatype DeletedObject = DeletedObject(uuid: Uuid, deletionTime: Time)

  /** The settings object of `cleanup`; a missing key reads as false, so
      `cleanup()` and `cleanup({})` are `CleanupOptions(false, false, false)`. */
  datatype CleanupOptions = CleanupOptions(historyRules: bool, customIcons: bool, binaries: bool)
}
