/** What an agent node says about its element: role, name, value and actions, with
    secrets kept out. */
module NodeContent {
  import opened Common
  import opened Json

  datatype StructuralRole =
    | Page | Heading | Paragraph | Button | Link | Textbox | Checkbox | Radio | List | ListItem | Table | Dialog
    | Image | Canvas | Video | Form | Frame | Unknown

  datatype AgentValue = Text(text: string) | Url(url: string)

  datatype ActionDescriptor = ActionDescriptor(name: string, consequence: string)

  datatype Content = Content(
    role: StructuralRole, name: Option<string>, value: Option<AgentValue>, actions: seq<ActionDescriptor>)

  // ---------------------------------------------------------------- redaction

  function LowerChar(c: char): char {
    if 'A' <= c <= 'Z' then c - 'A' + 'a' else c
  }

  /** ASCII lower case. */
  function Lower(s: string): string {
    seq(|s|, i requires 0 <= i < |s| => LowerChar(s[i]))
  }

  predicate OccursAt(s: string, part: string, at: nat) {
    at + |part| <= |s| && s[at..at + |part|] == part
  }

  predicate Occurs(s: string, part: string) {
    exists at :: 0 <= at <= |s| && OccursAt(s, part, at)
  }

  predicate OccursAny(s: string, parts: seq<string>) {
    exists k :: 0 <= k < |parts| && Occurs(s, parts[k])
  }

  function RedactedWords(): seq<string> {
    ["password", "secret", "token", "private key", "card number"]
  }

  function SensitiveWords(): seq<string> {
    ["secret", "password", "token", "api_key", "apikey", "private_key", "card-number", "cc-number", "cvv", "cvc",
     "one-time-code"]
  }

  const REDACTED := "[REDACTED]"

  /** The text mentions a secret, in any case. */
  predicate Tells(s: string) {
    OccursAny(Lower(s), RedactedWords())
  }

  function Redact(s: string): string {
    if Tells(s) then REDACTED else s
  }

  /** The replacement mentions no secret, so redacting is final: what comes out
      tells nothing, and a text passes unchanged exactly when it told nothing. */
  lemma RedactSettles(s: string)
    ensures !Tells(Redact(s))
    ensures Redact(Redact(s)) == Redact(s)
    ensures s != REDACTED ==> (Redact(s) == s <==> !Tells(s))
  {
    ReplacementIsClean();
  }

  lemma ReplacementIsClean()
    ensures !Tells(REDACTED)
  {
    var low, words := Lower(REDACTED), RedactedWords();
    forall k, at | 0 <= k < |words| && 0 <= at <= |low|
      ensures !OccursAt(low, words[k], at)
    {
      if OccursAt(low, words[k], at) {
        FirstLetters(low, words[k], at);
      }
    }
  }

  /** Only `token` starts with a letter of the replacement, and goes on otherwise;
      `card number` is too long. */
  lemma FirstLetters(low: string, word: string, at: nat)
    requires low == Lower(REDACTED) && OccursAt(low, word, at) && |word| >= 2
    ensures word[0] == low[at] && word[1] == low[at + 1]
    ensures !(word[0] == 'p') && !(word[0] == 's') && !(word[0] == 't' && word[1] == 'o') && |word| <= 10
  {
    assert low[at..at + |word|][0] == low[at];
    assert low[at..at + |word|][1] == low[at + 1];
  }

  // ------------------------------------------------------------------ content

  function RoleForTag(tag: string): StructuralRole {
    if tag == "button" then Button
    else if tag == "link" || tag == "a" then Link
    else if tag in ["textbox", "combobox", "searchbox", "input", "textarea"] then Textbox
    else if tag == "checkbox" then Checkbox
    else if tag == "radio" then Radio
    else if tag == "dialog" then Dialog
    else if tag in ["heading", "h1", "h2", "h3", "h4", "h5", "h6"] then Heading
    else if tag == "form" then Form
    else if tag == "iframe" || tag == "frame" then Frame
    else if tag == "canvas" then Canvas
    else if tag == "video" then Video
    else if tag == "img" then Image
    else if tag == "li" then ListItem
    else if tag == "ol" || tag == "ul" then List
    else if tag == "p" then Paragraph
    else if tag == "table" then Table
    else Unknown
  }

  /** An explicit role goes before the tag. */
  function RoleOf(v: Value): StructuralRole {
    RoleForTag(TagOf(v))
  }

  function TagOf(v: Value): string {
    if TextField(v, "role") != "" then TextField(v, "role")
    else match StringField(v, "tag")
      case Some(tag) => tag
      case None => "unknown"
  }

  /** A password or hidden field, or one named after a secret. */
  predicate Sensitive(v: Value) {
    || TextField(v, "type") == "password" || TextField(v, "type") == "hidden"
    || OccursAny(Lower(TextField(v, "name")) + " " + Lower(TextField(v, "fieldName")) + " "
                 + Lower(TextField(v, "autocomplete")), SensitiveWords())
  }

  function NameOf(v: Value): Option<string> {
    var name, text := Redact(TextField(v, "name")), Redact(TextField(v, "text"));
    if name != "" then Some(name) else if text != "" then Some(text) else None
  }

  function ValueOf(v: Value): Option<AgentValue> {
    var url, raw, text := TextField(v, "url"), TextField(v, "value"), Redact(TextField(v, "text"));
    if Sensitive(v) then None
    else if url != "" && (RoleOf(v).Link? || RoleOf(v).Image?) then Some(Url(Redact(url)))
    else if raw == "" then if text != "" then Some(Text(text)) else None
    else Some(Text(Redact(raw)))
  }

  function ActionsOf(role: StructuralRole): seq<ActionDescriptor> {
    if role.Button? || role.Link? then [ActionDescriptor("activate", "activates the DOM control")] else []
  }

  function ContentOf(v: Value): Content {
    Content(RoleOf(v), NameOf(v), ValueOf(v), ActionsOf(RoleOf(v)))
  }

  predicate Quiet(value: AgentValue) {
    match value
    case Text(text) => !Tells(text)
    case Url(url) => !Tells(url)
  }

  /** Neither name nor value mentions a secret. */
  predicate Clean(c: Content) {
    && (c.name.Some? ==> c.name.value != "" && !Tells(c.name.value))
    && (c.value.Some? ==> Quiet(c.value.value))
  }

  lemma NameIsClean(v: Value)
    ensures NameOf(v).Some? ==> NameOf(v).value != "" && !Tells(NameOf(v).value)
  {
    RedactSettles(TextField(v, "name"));
    RedactSettles(TextField(v, "text"));
  }

  lemma ValueIsClean(v: Value)
    ensures ValueOf(v).Some? ==> Quiet(ValueOf(v).value)
  {
    RedactSettles(TextField(v, "text"));
    RedactSettles(TextField(v, "url"));
    RedactSettles(TextField(v, "value"));
  }

  /** No element's content mentions a secret, and sensitive fields show no value. */
  lemma ContentIsClean(v: Value)
    ensures Clean(ContentOf(v))
    ensures Sensitive(v) ==> ContentOf(v).value.None?
    ensures ContentOf(v).value.Some? && ContentOf(v).value.value.Url? ==> RoleOf(v).Link? || RoleOf(v).Image?
    ensures ContentOf(v).actions != [] <==> RoleOf(v).Button? || RoleOf(v).Link?
  {
    NameIsClean(v);
    ValueIsClean(v);
  }

  // ------------------------------------------------------- content in plain terms

  /** The field holds the nonempty text `s`. */
  predicate Holds(v: Value, field: string, s: string) {
    v.Object? && field in v.fields && v.fields[field] == Str(s) && s != ""
  }

  /** The field holds no text, or an empty one. */
  predicate Lacks(v: Value, field: string) {
    v.Object? && field in v.fields ==> !v.fields[field].Str? || v.fields[field].s == ""
  }

  /** Character by character the same up to ASCII case. */
  predicate SameLetters(part: string, word: string) {
    |part| == |word| &&
    forall i | 0 <= i < |word| :: part[i] == word[i] || ('A' <= part[i] <= 'Z' && part[i] as int + 32 == word[i] as int)
  }

  /** The word stands somewhere in the text, in any case. */
  ghost predicate Mentions(s: string, word: string) {
    exists a, part, b :: s == a + part + b && SameLetters(part, word)
  }

  /** A text is redacted exactly if it mentions one of five words. */
  ghost predicate MentionsSecret(s: string) {
    || Mentions(s, "password") || Mentions(s, "secret") || Mentions(s, "token")
    || Mentions(s, "private key") || Mentions(s, "card number")
  }

  /** A field is sensitive by its type, or by a word in its name, field name or
      autocomplete hint. */
  ghost predicate NamesSecret(s: string) {
    || Mentions(s, "secret") || Mentions(s, "password") || Mentions(s, "token") || Mentions(s, "api_key")
    || Mentions(s, "apikey") || Mentions(s, "private_key") || Mentions(s, "card-number") || Mentions(s, "cc-number")
    || Mentions(s, "cvv") || Mentions(s, "cvc") || Mentions(s, "one-time-code")
  }

  predicate LowerWord(word: string) {
    forall i | 0 <= i < |word| :: !('A' <= word[i] <= 'Z')
  }

  lemma LowerIsSame(part: string, word: string)
    requires LowerWord(word)
    ensures Lower(part) == word <==> SameLetters(part, word)
  {
    if SameLetters(part, word) {
      assert forall i | 0 <= i < |word| :: LowerChar(part[i]) == word[i];
    } else if |part| == |word| {
      var i :| 0 <= i < |word| &&
               !(part[i] == word[i] || ('A' <= part[i] <= 'Z' && part[i] as int + 32 == word[i] as int));
      assert Lower(part)[i] != word[i];
    }
  }

  lemma OccursIffMentions(s: string, word: string)
    requires LowerWord(word)
    ensures Occurs(Lower(s), word) <==> Mentions(s, word)
  {
    if Occurs(Lower(s), word) {
      var at :| 0 <= at <= |s| && OccursAt(Lower(s), word, at);
      var part := s[at..at + |word|];
      assert s == s[..at] + part + s[at + |word|..];
      assert Lower(part) == Lower(s)[at..at + |word|];
      LowerIsSame(part, word);
    }
    if Mentions(s, word) {
      var a, part, b :| s == a + part + b && SameLetters(part, word);
      LowerIsSame(part, word);
      assert Lower(s)[|a|..|a| + |word|] == Lower(part);
      assert OccursAt(Lower(s), word, |a|);
    }
  }

  lemma TellsIffMentions(s: string)
    ensures Tells(s) <==> MentionsSecret(s)
  {
    var low, words := Lower(s), RedactedWords();
    assert words[0] == "password" && words[1] == "secret" && words[2] == "token";
    assert words[3] == "private key" && words[4] == "card number";
    OccursIffMentions(s, "password");
    OccursIffMentions(s, "secret");
    OccursIffMentions(s, "token");
    OccursIffMentions(s, "private key");
    OccursIffMentions(s, "card number");
  }

  /** A word without a space stands in one of two texts joined by one exactly if it
      stands in their join. */
  lemma OccursInJoin(a: string, b: string, word: string)
    requires ' ' !in word && word != ""
    ensures Occurs(a + " " + b, word) <==> Occurs(a, word) || Occurs(b, word)
  {
    var s := a + " " + b;
    if Occurs(s, word) {
      var at :| 0 <= at <= |s| && OccursAt(s, word, at);
      if at + |word| <= |a| {
        FrontOfJoin(a, " " + b, word, at);
        assert s == a + (" " + b);
      } else if at <= |a| {
        SpaceInside(a, b, word, at);
      } else {
        BackOfJoin(a + " ", b, word, at - |a| - 1);
      }
    }
    if Occurs(a, word) {
      var at :| 0 <= at <= |a| && OccursAt(a, word, at);
      FrontOfJoin(a, " " + b, word, at);
      assert s == a + (" " + b);
    }
    if Occurs(b, word) {
      var at: nat :| at <= |b| && OccursAt(b, word, at);
      BackOfJoin(a + " ", b, word, at);
      assert OccursAt(s, word, |a| + 1 + at);
    }
  }

  lemma FrontOfJoin(a: string, b: string, word: string, at: nat)
    requires at + |word| <= |a|
    ensures OccursAt(a + b, word, at) <==> OccursAt(a, word, at)
  {
    assert (a + b)[at..at + |word|] == a[at..at + |word|];
  }

  lemma BackOfJoin(a: string, b: string, word: string, at: nat)
    ensures OccursAt(a + b, word, |a| + at) <==> OccursAt(b, word, at)
  {
    if at + |word| <= |b| {
      assert (a + b)[|a| + at..|a| + at + |word|] == b[at..at + |word|];
    }
  }

  lemma SpaceInside(a: string, b: string, word: string, at: nat)
    requires OccursAt(a + " " + b, word, at) && at <= |a| < at + |word|
    ensures ' ' in word
  {
    assert word[|a| - at] == (a + " " + b)[|a|];
  }

  lemma OccursInThree(a: string, b: string, c: string, word: string)
    requires ' ' !in word && word != "" && LowerWord(word)
    ensures Occurs(Lower(a) + " " + Lower(b) + " " + Lower(c), word) <==>
            Mentions(a, word) || Mentions(b, word) || Mentions(c, word)
  {
    OccursInJoin(Lower(a) + " " + Lower(b), Lower(c), word);
    OccursInJoin(Lower(a), Lower(b), word);
    OccursIffMentions(a, word);
    OccursIffMentions(b, word);
    OccursIffMentions(c, word);
  }

  ghost predicate MentionsAny(s: string, words: seq<string>) {
    exists k :: 0 <= k < |words| && Mentions(s, words[k])
  }

  predicate PlainWord(word: string) {
    ' ' !in word && word != "" && LowerWord(word)
  }

  lemma AnyInThree(a: string, b: string, c: string, words: seq<string>)
    requires forall k | 0 <= k < |words| :: PlainWord(words[k])
    ensures OccursAny(Lower(a) + " " + Lower(b) + " " + Lower(c), words) <==>
            MentionsAny(a, words) || MentionsAny(b, words) || MentionsAny(c, words)
  {
    forall k | 0 <= k < |words|
      ensures Occurs(Lower(a) + " " + Lower(b) + " " + Lower(c), words[k]) <==>
              Mentions(a, words[k]) || Mentions(b, words[k]) || Mentions(c, words[k])
    {
      OccursInThree(a, b, c, words[k]);
    }
  }

  lemma SensitiveWordsArePlain()
    ensures forall k | 0 <= k < |SensitiveWords()| :: PlainWord(SensitiveWords()[k])
  {
  }

  lemma NamesSecretIff(s: string)
    ensures NamesSecret(s) <==> MentionsAny(s, SensitiveWords())
  {
    var words := SensitiveWords();
    assert words[0] == "secret" && words[1] == "password" && words[2] == "token" && words[3] == "api_key";
    assert words[4] == "apikey" && words[5] == "private_key" && words[6] == "card-number";
    assert words[7] == "cc-number" && words[8] == "cvv" && words[9] == "cvc" && words[10] == "one-time-code";
  }

  /** A field whose value is withheld. */
  ghost predicate Withheld(v: Value) {
    || Holds(v, "type", "password") || Holds(v, "type", "hidden")
    || NamesSecret(TextField(v, "name")) || NamesSecret(TextField(v, "fieldName"))
    || NamesSecret(TextField(v, "autocomplete"))
  }

  lemma SensitiveIffWithheld(v: Value)
    ensures Sensitive(v) <==> Withheld(v)
  {
    var a, b, c := TextField(v, "name"), TextField(v, "fieldName"), TextField(v, "autocomplete");
    SensitiveWordsArePlain();
    AnyInThree(a, b, c, SensitiveWords());
    NamesSecretIff(a);
    NamesSecretIff(b);
    NamesSecretIff(c);
  }

  /** The text an agent sees of `s`. */
  ghost function Seen(s: string): string {
    if MentionsSecret(s) then "[REDACTED]" else s
  }

  lemma RedactIsSeen(s: string)
    ensures Redact(s) == Seen(s)
    ensures s != "" ==> Redact(s) != ""
  {
    TellsIffMentions(s);
  }

  lemma TextFieldIs(v: Value, field: string)
    ensures Lacks(v, field) <==> TextField(v, field) == ""
    ensures forall s :: Holds(v, field, s) <==> s != "" && TextField(v, field) == s
  {
  }

  /** The name of an element is its own name, or else its text, or else missing. */
  ghost predicate ShowsName(v: Value, name: Option<string>) {
    && (forall s | Holds(v, "name", s) :: name == Some(Seen(s)))
    && (forall s | Lacks(v, "name") && Holds(v, "text", s) :: name == Some(Seen(s)))
    && (Lacks(v, "name") && Lacks(v, "text") ==> name.None?)
  }

  lemma NameIsShown(v: Value)
    ensures ShowsName(v, NameOf(v))
  {
    TextFieldIs(v, "name");
    TextFieldIs(v, "text");
    RedactIsSeen(TextField(v, "name"));
    RedactIsSeen(TextField(v, "text"));
    assert !Tells("") by {
      TellsNothing();
    }
  }

  lemma TellsNothing()
    ensures !Tells("")
  {
    var words := RedactedWords();
    forall k | 0 <= k < |words|
      ensures words[k] != "" && !Occurs(Lower(""), words[k])
    {
    }
  }

  /** The value of an element: withheld, the address of a link or image, its own
      value, or else its text, or else missing. */
  ghost predicate ShowsValue(v: Value, role: StructuralRole, value: Option<AgentValue>) {
    var addressed := (role.Link? || role.Image?) && !Lacks(v, "url");
    && (Withheld(v) ==> value.None?)
    && (forall s | !Withheld(v) && addressed && Holds(v, "url", s) :: value == Some(Url(Seen(s))))
    && (forall s | !Withheld(v) && !addressed && Holds(v, "value", s) :: value == Some(Text(Seen(s))))
    && (forall s | !Withheld(v) && !addressed && Lacks(v, "value") && Holds(v, "text", s) ::
          value == Some(Text(Seen(s))))
    && (!Withheld(v) && !addressed && Lacks(v, "value") && Lacks(v, "text") ==> value.None?)
  }

  lemma ValueIsShown(v: Value)
    ensures ShowsValue(v, RoleOf(v), ValueOf(v))
  {
    SensitiveIffWithheld(v);
    TextFieldIs(v, "url");
    TextFieldIs(v, "value");
    TextFieldIs(v, "text");
    RedactIsSeen(TextField(v, "url"));
    RedactIsSeen(TextField(v, "value"));
    RedactIsSeen(TextField(v, "text"));
    TellsNothing();
  }

  /** The tags and explicit roles that mean a structural role. */
  ghost function TagsOf(role: StructuralRole): set<string> {
    match role
    case Page => {}
    case Heading => {"heading", "h1", "h2", "h3", "h4", "h5", "h6"}
    case Paragraph => {"p"}
    case Button => {"button"}
    case Link => {"a", "link"}
    case Textbox => {"textbox", "combobox", "searchbox", "input", "textarea"}
    case Checkbox => {"checkbox"}
    case Radio => {"radio"}
    case List => {"ol", "ul"}
    case ListItem => {"li"}
    case Table => {"table"}
    case Dialog => {"dialog"}
    case Image => {"img"}
    case Canvas => {"canvas"}
    case Video => {"video"}
    case Form => {"form"}
    case Frame => {"iframe", "frame"}
    case Unknown => {}
  }

  ghost predicate Means(tag: string, role: StructuralRole) {
    if role.Unknown? then forall r :: tag !in TagsOf(r) else tag in TagsOf(role)
  }

  lemma RoleIsMeant(tag: string)
    ensures Means(tag, RoleForTag(tag))
  {
  }

  /** An explicit role decides, or else the tag; without either it is unknown. */
  ghost predicate ShowsRole(v: Value, role: StructuralRole) {
    && (forall s | Holds(v, "role", s) :: Means(s, role))
    && (forall s | Lacks(v, "role") && Holds(v, "tag", s) :: Means(s, role))
    && (Lacks(v, "role") && Lacks(v, "tag") ==> role.Unknown?)
  }

  lemma RoleIsShown(v: Value)
    ensures ShowsRole(v, RoleOf(v))
  {
    TextFieldIs(v, "role");
    TextFieldIs(v, "tag");
    RoleIsMeant(TagOf(v));
    NoTagIsUnknown();
  }

  lemma NoTagIsUnknown()
    ensures RoleForTag("").Unknown? && RoleForTag("unknown").Unknown?
  {
  }

  /** What a node says about its element, in plain terms. */
  ghost predicate ShowsContent(v: Value, c: Content) {
    && ShowsName(v, c.name) && ShowsRole(v, c.role) && ShowsValue(v, c.role, c.value)
    && c.actions == if c.role.Button? || c.role.Link?
                    then [ActionDescriptor("activate", "activates the DOM control")] else []
  }

  lemma ContentIsShown(v: Value)
    ensures ShowsContent(v, ContentOf(v))
  {
    NameIsShown(v);
    RoleIsShown(v);
    ValueIsShown(v);
  }
}
