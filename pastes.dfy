/**
 * The paste record and its field rules: the privacy tiers, the binding
 * constraints of the struct tags, the column defaults the database applies on
 * insert, and the JSON form a paste is returned in.
 */
module Pastes {
  import opened Wrappers

  type uint64 = x: int | 0 <= x < 0x1_0000_0000_0000_0000

  /**
   * An instant as a Go time.Time holds it, counted from Go's zero time, so
   * that ZeroTime is exactly the value for which IsZero holds.
   */
  type Time = int
  const ZeroTime: Time := 0

  const Public: string := "public"
  const Private: string := "private"
  const PasswordTier: string := "password"

  const DefaultPrivacy: string := Public
  const DefaultSyntaxHighlight: string := "text"

  /** `oneof=public private password` */
  predicate IsPrivacy(s: string) {
    s == Public || s == Private || s == PasswordTier
  }

  /**
   * A stored paste. `password` holds a bcrypt hash or is empty;
   * `privateAccessId` is the access token of a private paste or is empty.
   */
  datatype Paste = Paste(
    id: uint64,
    title: string,
    content: string,
    syntaxHighlight: string,
    editorType: string,
    createdAt: Time,
    expiresAt: Time,
    privacy: string,
    privateAccessId: string,
    password: string)

  /**
   * Whether the bound fields pass gin's validation: title, content and
   * syntax_highlight are `required` (a string binds only when non-empty) and
   * privacy is `required,oneof=public private password`.
   */
  predicate FieldsBind(title: string, content: string, syntaxHighlight: string, privacy: string) {
    title != "" && content != "" && syntaxHighlight != "" && IsPrivacy(privacy)
  }

  /** The columns with a `default:` tag get their default on insert when the field holds its zero value. */
  function WithColumnDefaults(p: Paste): (q: Paste)
    ensures q.privacy == if p.privacy == "" then DefaultPrivacy else p.privacy
    ensures q.syntaxHighlight == if p.syntaxHighlight == "" then DefaultSyntaxHighlight else p.syntaxHighlight
    ensures q.(privacy := p.privacy, syntaxHighlight := p.syntaxHighlight) == p
  {
    p.(privacy := if p.privacy == "" then DefaultPrivacy else p.privacy,
       syntaxHighlight := if p.syntaxHighlight == "" then DefaultSyntaxHighlight else p.syntaxHighlight)
  }

  /** A paste whose fields passed binding is stored with the privacy and highlighting it asked for. */
  lemma BoundFieldsNeedNoDefault(p: Paste)
    requires FieldsBind(p.title, p.content, p.syntaxHighlight, p.privacy)
    ensures WithColumnDefaults(p) == p
  {
  }

  /**
   * The JSON object a paste is rendered as. It has no member for the
   * password hash (`json:"-"`); `expiresAt` is None when the member is left out.
   */
  datatype PasteJson = PasteJson(
    id: uint64,
    title: string,
    content: string,
    syntaxHighlight: string,
    editorType: string,
    createdAt: Time,
    expiresAt: Option<Time>,
    privacy: string,
    privateAccessId: string)

  /**
   * The rendering as encoding/json performs it: `omitempty` never leaves out
   * a struct-typed field, so a zero ExpiresAt is written out as Go's zero time.
   */
  function ToJsonAsWritten(p: Paste): (j: PasteJson)
    ensures j.expiresAt == Some(p.expiresAt)
  {
    PasteJson(p.id, p.title, p.content, p.syntaxHighlight, p.editorType, p.createdAt,
              Some(p.expiresAt), p.privacy, p.privateAccessId)
  }

  /** A paste that never expires still carries an `expires_at` member in the written rendering. */
  lemma ZeroExpiryIsWrittenOut(p: Paste)
    requires p.expiresAt == ZeroTime
    ensures ToJsonAsWritten(p).expiresAt.Some?
  {
  }

  /**
   * The rendering the `omitempty` tag asks for: `expires_at` is present
   * exactly when the paste has an expiry, and every other member is copied.
   */
  function ToJson(p: Paste): (j: PasteJson)
    ensures j.expiresAt.None? <==> p.expiresAt == ZeroTime
    ensures j.expiresAt.Some? ==> j.expiresAt.value == p.expiresAt
    ensures j == ToJsonAsWritten(p).(expiresAt := j.expiresAt)
  {
    PasteJson(p.id, p.title, p.content, p.syntaxHighlight, p.editorType, p.createdAt,
              if p.expiresAt == ZeroTime then None else Some(p.expiresAt),
              p.privacy, p.privateAccessId)
  }

  /** The two renderings differ exactly for a paste that never expires. */
  lemma RenderingsDifferOnlyWithoutExpiry(p: Paste)
    ensures ToJson(p) == ToJsonAsWritten(p) <==> p.expiresAt != ZeroTime
  {
    if p.expiresAt == ZeroTime {
      assert ToJson(p).expiresAt != ToJsonAsWritten(p).expiresAt;
    }
  }

  /** The rendering does not depend on the password hash: nothing of it reaches the client. */
  lemma JsonHidesPassword(p: Paste, hash: string)
    ensures ToJson(p.(password := hash)) == ToJson(p)
  {
  }

  /** The rendering loses nothing but the hash: two pastes with the same JSON differ at most in it. */
  lemma JsonDeterminesAllButPassword(p: Paste, q: Paste)
    requires ToJson(p) == ToJson(q)
    ensures p.(password := q.password) == q
  {
    assert p.expiresAt == q.expiresAt by {
      if p.expiresAt != ZeroTime {
        assert ToJson(p).expiresAt.value == p.expiresAt;
      }
    }
  }
}
