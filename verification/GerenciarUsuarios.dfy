/**
 * The user form's validation rules: a name pattern, an email pattern, a
 * password-strength pattern, password confirmation, a telephone field capped
 * at 11 characters that accepts digit keys only, and a required profile.
 * Each pattern is a hand-coded predicate over the string.
 */
module GerenciarUsuarios {
  import opened Wrappers
  import opened Text

  // ----- name: ^[A-Za-zÀ-ÖØ-öø-ÿ\s]+$ -----

  /** ASCII letters, the Latin-1 letters U+00C0-U+00FF except × (U+00D7) and ÷ (U+00F7), and `\s`. */
  predicate NameChar(c: char)
  {
    var k := c as int;
    IsAsciiLetter(c) || (0xC0 <= k <= 0xD6) || (0xD8 <= k <= 0xF6) || (0xF8 <= k <= 0xFF) || IsJsWhitespace(c)
  }

  predicate NameValid(s: string)
  {
    |s| > 0 && forall i :: 0 <= i < |s| ==> NameChar(s[i])
  }

  /** The gaps in the Latin-1 ranges are exactly the multiplication and division signs. */
  lemma NameRangeGaps(c: char)
    requires 0xC0 <= c as int <= 0xFF
    ensures NameChar(c) <==> c as int != 0xD7 && c as int != 0xF7
  {
  }

  // ----- email: ^[a-zA-Z0-9._%+-]+@[a-zA-Z0-9.-]+\.[a-zA-Z]{2,}$ -----

  predicate LocalChar(c: char)
  {
    IsAsciiLetter(c) || IsDigit(c) || c == '.' || c == '_' || c == '%' || c == '+' || c == '-'
  }

  predicate DomainChar(c: char)
  {
    IsAsciiLetter(c) || IsDigit(c) || c == '.' || c == '-'
  }

  predicate AllLocal(s: string) { forall i :: 0 <= i < |s| ==> LocalChar(s[i]) }
  predicate AllDomain(s: string) { forall i :: 0 <= i < |s| ==> DomainChar(s[i]) }
  predicate AllLetters(s: string) { forall i :: 0 <= i < |s| ==> IsAsciiLetter(s[i]) }

  /** The three parts the pattern matches: local part, domain before the dot, top-level domain. */
  predicate EmailParts(local: string, domain: string, tld: string)
  {
    |local| >= 1 && AllLocal(local) && |domain| >= 1 && AllDomain(domain) && |tld| >= 2 && AllLetters(tld)
  }

  /**
   * The hand-coded check: split at the first '@', then split what follows at
   * its last '.'.
   */
  predicate EmailValid(s: string)
  {
    var at := IndexOf(s, '@');
    at >= 0 &&
    var rest := s[at + 1..];
    var dot := LastIndexOf(rest, '.');
    dot >= 0 && EmailParts(s[..at], rest[..dot], rest[dot + 1..])
  }

  /** Splitting `front + [sep] + back` at the first `sep`, when `front` holds none. */
  lemma SplitAtFirst(front: string, sep: char, back: string)
    requires sep !in front
    ensures IndexOf(front + [sep] + back, sep) == |front|
    ensures (front + [sep] + back)[..|front|] == front
    ensures (front + [sep] + back)[|front| + 1..] == back
  {
    var s := front + [sep] + back;
    assert s[..|front|] == front;
    IndexOfIsFirst(s, sep, |front|);
    assert s[|front| + 1..] == back;
  }

  /** Splitting `front + [sep] + back` at the last `sep`, when `back` holds none. */
  lemma SplitAtLast(front: string, sep: char, back: string)
    requires sep !in back
    ensures LastIndexOf(front + [sep] + back, sep) == |front|
    ensures (front + [sep] + back)[..|front|] == front
    ensures (front + [sep] + back)[|front| + 1..] == back
  {
    var s := front + [sep] + back;
    assert s[|front| + 1..] == back;
    LastIndexOfIsLast(s, sep, |front|);
    assert s[..|front|] == front;
  }

  lemma LocalHasNoAt(local: string)
    requires AllLocal(local)
    ensures '@' !in local
  {
    forall i | 0 <= i < |local| ensures local[i] != '@' { assert LocalChar(local[i]); }
  }

  lemma LettersHaveNoDot(tld: string)
    requires AllLetters(tld)
    ensures '.' !in tld
  {
    forall i | 0 <= i < |tld| ensures tld[i] != '.' { assert IsAsciiLetter(tld[i]); }
  }

  /** A sequence is the part before position `k`, the element at `k`, and the part after. */
  lemma JoinAround(s: string, k: int)
    requires 0 <= k < |s|
    ensures s == s[..k] + [s[k]] + s[k + 1..]
  {
  }

  lemma SeqAssoc4(a: string, b: string, c: string, d: string)
    ensures a + b + (c + d) == a + b + c + d
  {
  }

  /** The address written with its separators, regrouped around the '@'. */
  lemma AddressRegroup(local: string, domain: string, tld: string)
    ensures local + "@" + domain + "." + tld == local + ['@'] + (domain + ['.'] + tld)
  {
    SeqAssoc4(local, ['@'], domain + ['.'], tld);
  }

  /** The two cuts of `EmailValid`, given where they fall. */
  lemma EmailValidAt(s: string, at: int, dot: int)
    requires 0 <= at < |s| && IndexOf(s, '@') == at
    requires 0 <= dot && LastIndexOf(s[at + 1..], '.') == dot
    requires EmailParts(s[..at], s[at + 1..][..dot], s[at + 1..][dot + 1..])
    ensures EmailValid(s)
  {
  }

  /** Every local part, domain and top-level domain of the right shapes make a valid address. */
  lemma EmailFromParts(local: string, domain: string, tld: string)
    requires EmailParts(local, domain, tld)
    ensures EmailValid(local + "@" + domain + "." + tld)
  {
    var rest := domain + ['.'] + tld;
    var s := local + ['@'] + rest;
    LocalHasNoAt(local);
    LettersHaveNoDot(tld);
    SplitAtFirst(local, '@', rest);
    SplitAtLast(domain, '.', tld);
    EmailValidAt(s, |local|, |domain|);
    AddressRegroup(local, domain, tld);
  }

  /** Cutting at an '@' and then at a '.' after it, and joining the pieces back, gives the string. */
  lemma JoinParts(s: string, at: int, dot: int)
    requires 0 <= at < |s| && s[at] == '@'
    requires 0 <= dot < |s[at + 1..]| && s[at + 1..][dot] == '.'
    ensures s == s[..at] + "@" + s[at + 1..][..dot] + "." + s[at + 1..][dot + 1..]
  {
    var rest := s[at + 1..];
    var local, domain, tld := s[..at], rest[..dot], rest[dot + 1..];
    JoinAround(rest, dot);
    JoinAround(s, at);
    AddressRegroup(local, domain, tld);
  }

  /** A valid address splits back into such parts. */
  lemma EmailToParts(s: string) returns (local: string, domain: string, tld: string)
    requires EmailValid(s)
    ensures EmailParts(local, domain, tld)
    ensures s == local + "@" + domain + "." + tld
  {
    var at := IndexOf(s, '@');
    var rest := s[at + 1..];
    var dot := LastIndexOf(rest, '.');
    local, domain, tld := s[..at], rest[..dot], rest[dot + 1..];
    JoinParts(s, at, dot);
  }

  /** A valid address holds exactly one '@'. */
  lemma EmailHasOneAt(s: string)
    requires EmailValid(s)
    ensures '@' in s
    ensures forall i, j :: 0 <= i < |s| && 0 <= j < |s| && s[i] == '@' && s[j] == '@' ==> i == j
  {
    var at := IndexOf(s, '@');
    var rest := s[at + 1..];
    var dot := LastIndexOf(rest, '.');
    forall i | 0 <= i < |s| && i != at ensures s[i] != '@' {
      if i < at {
        assert s[i] == s[..at][i];
      } else {
        var k := i - at - 1;
        assert s[i] == rest[k];
        if k < dot {
          assert rest[k] == rest[..dot][k];
          assert DomainChar(rest[..dot][k]);
        } else if k > dot {
          assert rest[k] == rest[dot + 1..][k - dot - 1];
          assert IsAsciiLetter(rest[dot + 1..][k - dot - 1]);
        }
      }
    }
  }

  // ----- password: ^(?=.*[A-Z])(?=.*[0-9])(?=.*[!@#$%^&*])[A-Za-z\d!@#$%^&*]{8,}$ -----

  predicate Special(c: char)
  {
    c == '!' || c == '@' || c == '#' || c == '$' || c == '%' || c == '^' || c == '&' || c == '*'
  }

  predicate PasswordChar(c: char)
  {
    IsAsciiLetter(c) || IsDigit(c) || Special(c)
  }

  /** What the pattern says: length, alphabet and the three look-aheads. */
  ghost predicate PasswordSpec(s: string)
  {
    && |s| >= 8
    && (forall i :: 0 <= i < |s| ==> PasswordChar(s[i]))
    && (exists i :: 0 <= i < |s| && IsUpper(s[i]))
    && (exists i :: 0 <= i < |s| && IsDigit(s[i]))
    && (exists i :: 0 <= i < |s| && Special(s[i]))
  }

  /** What one pass over the password has seen. */
  datatype Scan = Scan(allAllowed: bool, upper: bool, digit: bool, special: bool)

  function ScanPassword(s: string): Scan
  {
    if s == [] then Scan(true, false, false, false)
    else
      var r := ScanPassword(s[1..]);
      Scan(r.allAllowed && PasswordChar(s[0]), r.upper || IsUpper(s[0]),
           r.digit || IsDigit(s[0]), r.special || Special(s[0]))
  }

  /** The hand-coded check. */
  predicate PasswordValid(s: string)
  {
    |s| >= 8 && ScanPassword(s) == Scan(true, true, true, true)
  }

  /** Each flag of the scan says what its name says about the whole password. */
  lemma {:induction false} ScanPasswordMeaning(s: string)
    ensures ScanPassword(s).allAllowed <==> forall i :: 0 <= i < |s| ==> PasswordChar(s[i])
    ensures ScanPassword(s).upper <==> exists i :: 0 <= i < |s| && IsUpper(s[i])
    ensures ScanPassword(s).digit <==> exists i :: 0 <= i < |s| && IsDigit(s[i])
    ensures ScanPassword(s).special <==> exists i :: 0 <= i < |s| && Special(s[i])
  {
    if s != [] {
      ScanPasswordMeaning(s[1..]);
      assert forall i :: 1 <= i < |s| ==> s[i] == s[1..][i - 1];
      assert forall i :: 0 <= i < |s| - 1 ==> s[1..][i] == s[i + 1];
    }
  }

  /** The hand-coded check accepts exactly the passwords the pattern accepts. */
  lemma PasswordValidMeetsSpec(s: string)
    ensures PasswordValid(s) <==> PasswordSpec(s)
  {
    ScanPasswordMeaning(s);
  }

  // ----- the form's rules, with their messages -----

  /** The messages react-hook-form shows; `None` when the field passes. */
  function NomeError(v: string): (e: Option<string>)
    ensures e == None <==> NameValid(v)
    ensures v == "" ==> e == Some("O nome é obrigatório.")
    ensures v != "" && !NameValid(v) ==> e == Some("O nome deve conter apenas letras e espaços.")
  {
    if v == "" then Some("O nome é obrigatório.")
    else if !NameValid(v) then Some("O nome deve conter apenas letras e espaços.")
    else None
  }

  function EmailError(v: string): (e: Option<string>)
    ensures e == None <==> EmailValid(v)
    ensures v == "" ==> e == Some("O email é obrigatório.")
    ensures v != "" && !EmailValid(v) ==> e == Some("Insira um email válido. Exemplo: usuario@dominio.com")
  {
    if v == "" then Some("O email é obrigatório.")
    else if !EmailValid(v) then Some("Insira um email válido. Exemplo: usuario@dominio.com")
    else None
  }

  function PasswordError(v: string): (e: Option<string>)
    ensures e == None <==> PasswordValid(v)
    ensures v == "" ==> e == Some("A senha é obrigatória.")
    ensures v != "" && !PasswordValid(v) ==> e == Some("A senha deve conter 8+ caracteres, uma maiúscula, um número e um símbolo.")
  {
    if v == "" then Some("A senha é obrigatória.")
    else if !PasswordValid(v) then Some("A senha deve conter 8+ caracteres, uma maiúscula, um número e um símbolo.")
    else None
  }

  /** The confirmation passes exactly when it is filled in and equals the password. */
  function ConfirmaSenhaError(v: string, password: string): (e: Option<string>)
    ensures e == None <==> v != "" && v == password
    ensures v == "" ==> e == Some("A confirmação de senha é obrigatória.")
    ensures v != "" && v != password ==> e == Some("As senhas não coincidem.")
  {
    if v == "" then Some("A confirmação de senha é obrigatória.")
    else if v != password then Some("As senhas não coincidem.")
    else None
  }

  /** Required, at most 11 characters; the `maxLength` rule carries no message of its own. */
  function TelefoneError(v: string): (e: Option<string>)
    ensures e == None <==> 1 <= |v| <= 11
    ensures v == "" ==> e == Some("O telefone é obrigatório.")
    ensures |v| > 11 ==> e == Some("")
  {
    if v == "" then Some("O telefone é obrigatório.")
    else if |v| > 11 then Some("")
    else None
  }

  /** The telephone field's key filter: `/[0-9]/.test(key)`, a digit anywhere in the key's name. */
  predicate KeyAccepted(key: string)
  {
    exists i :: 0 <= i < |key| && IsDigit(key[i])
  }

  /** A one-character key gets through exactly when it is a digit. */
  lemma SingleKeyAcceptedIffDigit(c: char)
    ensures KeyAccepted([c]) <==> IsDigit(c)
  {
    assert [c][0] == c;
  }

  /** The profile select's values. */
  function PerfilOptions(): seq<string> { ["", "0", "1"] }

  function PerfilError(v: string): (e: Option<string>)
    ensures e == None <==> v != ""
    ensures v == "" ==> e == Some("O perfil é obrigatório.")
  {
    Required(v, "O perfil é obrigatório.")
  }

  /** Of the offered values, only the two real profiles pass. */
  lemma PerfilChoices(v: string)
    requires v in PerfilOptions()
    ensures PerfilError(v) == None <==> v == "0" || v == "1"
  {
  }

  /** The values of the form. */
  datatype UsuarioForm = UsuarioForm(nome: string, email: string, isAdmin: string, password: string,
                                     confirmaSenha: string, cpf: string, telefone: string)

  /** The form reaches its submit handler only when every rule passes. */
  predicate Accepted(f: UsuarioForm)
  {
    NomeError(f.nome) == None && EmailError(f.email) == None && PerfilError(f.isAdmin) == None
    && PasswordError(f.password) == None && ConfirmaSenhaError(f.confirmaSenha, f.password) == None
    && TelefoneError(f.telefone) == None
  }

  /** What an accepted form guarantees about its values (the CPF has no rule). */
  lemma AcceptedMeans(f: UsuarioForm)
    ensures Accepted(f) <==>
      NameValid(f.nome) && EmailValid(f.email) && f.isAdmin != "" && PasswordSpec(f.password)
      && f.confirmaSenha == f.password && 1 <= |f.telefone| <= 11
  {
    PasswordValidMeetsSpec(f.password);
  }
}
