/** Which pairs of fields the conversion generator accepts, and whether the Convert functions it then calls
    take the hub field's type. */
module ConversionFits {
  import opened Wrappers
  import opened ConversionTargets

  function GoName(d: Descriptors, t: Id): string {
    if t in d.messages then d.messages[t].goName else ""
  }

  function RenameOf(d: Descriptors, t: Id): string {
    if t in d.messages then d.messages[t].renameTo else ""
  }

  function OrName(rename: string, name: string): string {
    if rename != "" then rename else name
  }

  /** The hub message that the Convert functions of t convert to and from, by its Go name. */
  function HubName(d: Descriptors, t: Id): string {
    OrName(RenameOf(d, t), GoName(d, t))
  }

  /** To the descriptor a map is a field of its entry message. */
  predicate MessageKind(f: Field) {
    f.shape.Mapped? || f.elem.MessageOf?
  }

  function KindName(d: Descriptors, f: Field): string
    requires MessageKind(f)
  {
    if f.shape.Mapped? then f.shape.entry else GoName(d, f.elem.target)
  }

  /** `Options.String`: empty if not set. */
  function StringOption(options: map<string, string>, key: string): string {
    if key in options then options[key] else ""
  }

  /** `getEnumRename` asks for rename_to. */
  predicate EnumFits(s: Elem, h: Elem) {
    s.EnumOf? && h.EnumOf? && h.name == OrName(StringOption(s.options, "rename_to"), s.name)
  }

  /** Values of a message type: one of the package has to carry the expected name on the hub, any other has
      to be the very same type. */
  predicate MessageFits(d: Descriptors, pkg: string, s: Elem, h: Elem, expected: string) {
    s.MessageOf? && h.MessageOf?
    && (if Local(d, pkg, s.target) then GoName(d, h.target) == expected else s.target == h.target)
  }

  // ---- What is accepted ----

  /** A field outside oneofs. The name that a local message is expected under comes from the rename of the
      enclosing message. Between maps the element type of the field written decides which rule is applied. */
  predicate PlainFits(d: Descriptors, pkg: string, rename: string, sf: Field, hf: Field, toHub: bool) {
    if sf.shape.Mapped? then
      && hf.shape.Mapped? && sf.shape.key == hf.shape.key
      && match (if toHub then hf.elem else sf.elem)
         case Basic(_) => sf.elem == hf.elem
         case EnumOf(_, _) => hf.elem.EnumOf?
         case MessageOf(_) => MessageFits(d, pkg, sf.elem, hf.elem, ExpectedName(d, rename, sf.elem))
    else
      && sf.shape.Listed? == hf.shape.Listed?
      && match sf.elem
         case Basic(_) => !hf.shape.Mapped? && sf.elem == hf.elem
         case EnumOf(_, _) => !hf.shape.Mapped? && EnumFits(sf.elem, hf.elem)
         case MessageOf(t) =>
           if Local(d, pkg, t) then MessageKind(hf) && KindName(d, hf) == OrName(rename, GoName(d, t))
           else !hf.shape.Mapped? && sf.elem == hf.elem
  }

  function ExpectedName(d: Descriptors, rename: string, s: Elem): string {
    if s.MessageOf? then OrName(rename, GoName(d, s.target)) else ""
  }

  /** A member of a oneof, which is neither a list nor a map. Here the rename is that of the field's type. */
  predicate MemberFits(d: Descriptors, pkg: string, sf: Field, hf: Field) {
    match sf.elem
    case Basic(_) => sf.elem == hf.elem
    case EnumOf(_, _) => EnumFits(sf.elem, hf.elem)
    case MessageOf(t) => MessageFits(d, pkg, sf.elem, hf.elem, HubName(d, t))
  }

  // ---- The generator's tests ----

  /** `generateFieldAssignment` up to the call: false where it panics. */
  method CheckPlain(d: Descriptors, pkg: string, rename: string, sf: Field, hf: Field, toHub: bool) returns (ok: bool)
    ensures ok <==> PlainFits(d, pkg, rename, sf, hf, toHub)
  {
    if !sf.shape.Mapped? {
      if (sf.shape.Listed? && !hf.shape.Listed?) || (!sf.shape.Listed? && hf.shape.Listed?) { return false; }
      match sf.elem {
        case MessageOf(t) =>
          if !MessageKind(hf) { return false; }
          if t in d.messages && d.messages[t].pkg == pkg {
            var msgName := d.messages[t].goName;
            if rename != "" { msgName := rename; }
            return msgName == KindName(d, hf);
          }
          return !hf.shape.Mapped? && hf.elem.target == t;
        case EnumOf(name, options) =>
          if MessageKind(hf) || !hf.elem.EnumOf? { return false; }
          var renameTo := StringOption(options, "rename_to");
          if renameTo != "" {
            return renameTo == hf.elem.name;
          }
          return name == hf.elem.name;
        case Basic(kind) =>
          return !MessageKind(hf) && hf.elem == Basic(kind);
      }
    } else {
      if !hf.shape.Mapped? || sf.shape.key != hf.shape.key { return false; }
      var value := if toHub then hf.elem else sf.elem;
      match value {
        case MessageOf(_) =>
          if !hf.elem.MessageOf? { return false; }
          if sf.elem.MessageOf? && sf.elem.target in d.messages && d.messages[sf.elem.target].pkg == pkg {
            var msgName := d.messages[sf.elem.target].goName;
            if rename != "" { msgName := rename; }
            return msgName == GoName(d, hf.elem.target);
          }
          return sf.elem == hf.elem;
        case EnumOf(_, _) =>
          return hf.elem.EnumOf?;
        case Basic(_) =>
          return sf.elem == hf.elem;
      }
    }
  }

  /** `generateOneofFieldAssignment` up to the call. */
  method CheckMember(d: Descriptors, pkg: string, sf: Field, hf: Field) returns (ok: bool)
    ensures ok <==> MemberFits(d, pkg, sf, hf)
  {
    match sf.elem {
      case MessageOf(t) =>
        if !hf.elem.MessageOf? { return false; }
        if t in d.messages && d.messages[t].pkg == pkg {
          var msgName := d.messages[t].goName;
          if d.messages[t].renameTo != "" { msgName := d.messages[t].renameTo; }
          return msgName == GoName(d, hf.elem.target);
        }
        return hf.elem.target == t;
      case EnumOf(name, options) =>
        if !hf.elem.EnumOf? { return false; }
        var renameTo := StringOption(options, "rename_to");
        if renameTo != "" {
          return renameTo == hf.elem.name;
        }
        return name == hf.elem.name;
      case Basic(kind) =>
        return hf.elem == Basic(kind);
    }
  }

  // ---- What acceptance means ----

  /** Maps of one key kind whose values are of one sort: equal basic kinds, enums, or fitting messages. */
  predicate SameMapSort(d: Descriptors, pkg: string, rename: string, sf: Field, hf: Field) {
    && sf.shape.Mapped? && hf.shape.Mapped? && sf.shape.key == hf.shape.key
    && match sf.elem
       case Basic(_) => sf.elem == hf.elem
       case EnumOf(_, _) => hf.elem.EnumOf?
       case MessageOf(t) => MessageFits(d, pkg, sf.elem, hf.elem, OrName(rename, GoName(d, t)))
  }

  /** One direction alone lets maps of different sorts pass, with an enum on the side written; both directions
      together accept two maps exactly when they are of the same sort. The names of map enums are not compared. */
  lemma MapsFitBothWaysIff(d: Descriptors, pkg: string, rename: string, sf: Field, hf: Field)
    requires sf.shape.Mapped?
    ensures (PlainFits(d, pkg, rename, sf, hf, true) && PlainFits(d, pkg, rename, sf, hf, false))
       <==> SameMapSort(d, pkg, rename, sf, hf)
  {
  }

  /** A scalar outside maps goes only to a field of the very same kind and shape: never to another number type, a
      list, a map, an enum or a message. */
  lemma ScalarKeepsItsKind(d: Descriptors, pkg: string, rename: string, sf: Field, hf: Field, toHub: bool)
    requires sf.elem.Basic? && !sf.shape.Mapped?
    ensures PlainFits(d, pkg, rename, sf, hf, toHub)
       <==> hf.elem.Basic? && hf.elem.kind == sf.elem.kind && !hf.shape.Mapped?
            && (hf.shape.Listed? <==> sf.shape.Listed?)
    ensures MemberFits(d, pkg, sf, hf) <==> hf.elem.Basic? && hf.elem.kind == sf.elem.kind
  {
  }

  /** The Convert functions of t take the hub field's elements. */
  predicate TakesElements(d: Descriptors, t: Id, hf: Field) {
    hf.elem.MessageOf? && GoName(d, hf.elem.target) == HubName(d, t)
  }

  /** In a oneof acceptance means the right type. */
  lemma MemberCallIsTyped(d: Descriptors, pkg: string, sf: Field, hf: Field)
    requires sf.elem.MessageOf? && Local(d, pkg, sf.elem.target)
    ensures MemberFits(d, pkg, sf, hf) <==> TakesElements(d, sf.elem.target, hf)
  {
  }

  /** Two fields of one shape that both carry messages, the spoke's of the package. */
  predicate CarryMessages(d: Descriptors, pkg: string, sf: Field, hf: Field) {
    && sf.elem.MessageOf? && Local(d, pkg, sf.elem.target) && hf.elem.MessageOf?
    && (if sf.shape.Mapped? then hf.shape.Mapped? && sf.shape.key == hf.shape.key
        else !hf.shape.Mapped? && sf.shape.Listed? == hf.shape.Listed?)
  }

  /** The name expected of the hub field is the one that the Convert functions of t take: the enclosing message
      is renamed to that very name, or it is not renamed and t is not renamed either. */
  predicate RenamesAgree(d: Descriptors, rename: string, t: Id) {
    if rename != "" then rename == HubName(d, t) else RenameOf(d, t) in {"", GoName(d, t)}
  }

  /** Outside oneofs it need not, because the rename consulted is that of the enclosing message: a hub field of
      the right type is accepted, and an accepted hub field is of the right type, if and only if the renames
      agree. Without agreement the generator panics on the right type and calls a function on the wrong one. */
  lemma AcceptedIffRightType(d: Descriptors, pkg: string, rename: string, sf: Field, hf: Field, toHub: bool)
    requires CarryMessages(d, pkg, sf, hf)
    ensures TakesElements(d, sf.elem.target, hf) ==>
      (PlainFits(d, pkg, rename, sf, hf, toHub) <==> RenamesAgree(d, rename, sf.elem.target))
    ensures PlainFits(d, pkg, rename, sf, hf, toHub) ==>
      (TakesElements(d, sf.elem.target, hf) <==> RenamesAgree(d, rename, sf.elem.target))
  {
  }

  /** A single local message against a map on the hub: to the descriptor the map is a message too, its entry, so the
      pair is accepted exactly if the entry has the expected name. */
  lemma SingleAgainstMap(d: Descriptors, pkg: string, rename: string, sf: Field, hf: Field, toHub: bool)
    requires sf.elem.MessageOf? && sf.elem.target in d.messages && d.messages[sf.elem.target].pkg == pkg
    requires sf.shape.Single? && hf.shape.Mapped?
    ensures PlainFits(d, pkg, rename, sf, hf, toHub)
       <==> hf.shape.entry == (if rename != "" then rename else d.messages[sf.elem.target].goName)
  {
  }

  /** A message of another package goes only to a field of the very same type and shape. */
  lemma ForeignKeepsItsType(d: Descriptors, pkg: string, rename: string, sf: Field, hf: Field, toHub: bool)
    requires sf.elem.MessageOf? && (sf.elem.target in d.messages ==> d.messages[sf.elem.target].pkg != pkg)
    ensures !sf.shape.Mapped? ==>
      (PlainFits(d, pkg, rename, sf, hf, toHub)
       <==> hf.elem == sf.elem && !hf.shape.Mapped? && (hf.shape.Listed? <==> sf.shape.Listed?))
    ensures sf.shape.Mapped? && (!toHub || hf.elem.MessageOf?) ==>
      (PlainFits(d, pkg, rename, sf, hf, toHub)
       <==> hf.elem == sf.elem && hf.shape.Mapped? && hf.shape.key == sf.shape.key)
    ensures MemberFits(d, pkg, sf, hf) <==> hf.elem == sf.elem
  {
  }

  /** A member with a message of the package goes only to a message that has the name its type is renamed to, or the
      type's own. */
  lemma MemberExpects(d: Descriptors, pkg: string, sf: Field, hf: Field)
    requires sf.elem.MessageOf? && sf.elem.target in d.messages && d.messages[sf.elem.target].pkg == pkg
    requires hf.elem.MessageOf? && hf.elem.target in d.messages
    ensures var m := d.messages[sf.elem.target];
      MemberFits(d, pkg, sf, hf)
      <==> d.messages[hf.elem.target].goName == (if m.renameTo != "" then m.renameTo else m.goName)
  {
  }

  /** Of two maps with the same keys each direction looks at the side it writes: a hub map of enums takes whatever the
      spoke map holds, a spoke map of enums takes enums only, a hub map of scalars the very same ones. */
  lemma EnumMapsOneWay(d: Descriptors, pkg: string, rename: string, sf: Field, hf: Field)
    requires sf.shape.Mapped? && hf.shape.Mapped? && sf.shape.key == hf.shape.key
    ensures hf.elem.EnumOf? ==> PlainFits(d, pkg, rename, sf, hf, true)
    ensures sf.elem.EnumOf? ==> (PlainFits(d, pkg, rename, sf, hf, false) <==> hf.elem.EnumOf?)
    ensures hf.elem.Basic? ==> (PlainFits(d, pkg, rename, sf, hf, true) <==> sf.elem == hf.elem)
  {
  }

  /** An option called rename_to would count. */
  lemma OptionReadCounts(d: Descriptors, pkg: string, sf: Field, hf: Field)
    requires sf.elem.EnumOf? && "rename_to" in sf.elem.options && sf.elem.options["rename_to"] != ""
    ensures MemberFits(d, pkg, sf, hf) <==> hf.elem.EnumOf? && hf.elem.name == sf.elem.options["rename_to"]
  {
  }

  /** The options that exist for an enum. */
  const ENUM_OPTIONS := {"enum_rename_to"}

  /** The option that renames an enum is called enum_rename_to, so it is never read: outside maps an enum is
      accepted if and only if the hub's has the same name, and one renamed to the hub's name panics. */
  lemma EnumRenameIgnored(d: Descriptors, pkg: string, rename: string, sf: Field, hf: Field, toHub: bool)
    requires sf.elem.EnumOf? && sf.elem.options.Keys <= ENUM_OPTIONS && sf.shape == hf.shape && !sf.shape.Mapped?
    ensures PlainFits(d, pkg, rename, sf, hf, toHub) <==> hf.elem.EnumOf? && hf.elem.name == sf.elem.name
    ensures MemberFits(d, pkg, sf, hf) <==> hf.elem.EnumOf? && hf.elem.name == sf.elem.name
    ensures hf.elem.EnumOf? && StringOption(sf.elem.options, "enum_rename_to") == hf.elem.name != sf.elem.name ==>
      !PlainFits(d, pkg, rename, sf, hf, toHub) && !MemberFits(d, pkg, sf, hf)
  {
    assert "rename_to"[0] != "enum_rename_to"[0];
    assert "rename_to" !in sf.elem.options;
  }

  // ---- A renamed message with a message field ----

  /** Run is renamed to Job and holds a Step, in both versions. */
  const RUN := Field("step", Single, MessageOf("v1.Step"), false, "", None)
  const JOB := Field("step", Single, MessageOf("v2.Step"), false, "", None)
  const WRONG := Field("step", Single, MessageOf("v2.Job"), false, "", None)
  const RENAMED := Descriptors([], map[
    "v1.Run" := Message("v1", "run.proto", "Run", "Job", false, true, [], [RUN]),
    "v1.Step" := Message("v1", "run.proto", "Step", "", false, false, [], []),
    "v2.Job" := Message("v2", "job.proto", "Job", "", false, true, [], [JOB]),
    "v2.Step" := Message("v2", "job.proto", "Step", "", false, false, [], [])])

  /** The faithful copy of the field is refused, in both directions; a hub field of type Job is accepted,
      although the call converts to a Step. */
  lemma RenamedMessagePanics(toHub: bool)
    ensures TakesElements(RENAMED, "v1.Step", JOB) && !PlainFits(RENAMED, "v1", "Job", RUN, JOB, toHub)
    ensures PlainFits(RENAMED, "v1", "Job", RUN, WRONG, toHub) && !TakesElements(RENAMED, "v1.Step", WRONG)
  {
  }
}
