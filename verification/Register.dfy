/**
 * The self-registration form: every field required, an email pattern written
 * with upper-case classes under the case-insensitive flag, a password that is
 * only required, a confirmation that must repeat it, and fixed-format CPF and
 * telephone patterns.
 */
module Register {
  import opened Wrappers
  import opened Text
  import GerenciarUsuarios

  // ----- email: /^[A-Z0-9._%+-]+@[A-Z0-9.-]+\.[A-Z]{2,}$/i -----

  /**
   * The case folding a non-Unicode `i` pattern applies before comparing: an
   * ASCII lower-case letter becomes its upper-case letter. Every other
   * character either keeps its code or folds to a character above U+007F
   * (a fold that would land in ASCII is refused), so none of them can meet an
   * ASCII class; the model keeps them unchanged.
   */
  function Canonicalize(c: char): (u: char)
    ensures IsLower(c) ==> IsUpper(u) && u as int == c as int - 32
    ensures !IsLower(c) ==> u == c
  {
    if IsLower(c) then (c as int - 32) as char else c
  }

  /** A class member of `[A-Z...]` under `i`: its folded form is in the class. */
  predicate LocalCharI(c: char)
  {
    var u := Canonicalize(c);
    IsUpper(u) || IsDigit(u) || u == '.' || u == '_' || u == '%' || u == '+' || u == '-'
  }

  predicate DomainCharI(c: char)
  {
    var u := Canonicalize(c);
    IsUpper(u) || IsDigit(u) || u == '.' || u == '-'
  }

  predicate LetterI(c: char)
  {
    IsUpper(Canonicalize(c))
  }

  /** The case-insensitive upper-case classes accept exactly the mixed-case classes of the admin form. */
  lemma ClassesAgree(c: char)
    ensures LocalCharI(c) <==> GerenciarUsuarios.LocalChar(c)
    ensures DomainCharI(c) <==> GerenciarUsuarios.DomainChar(c)
    ensures LetterI(c) <==> IsAsciiLetter(c)
  {
  }

  predicate EmailPartsI(local: string, domain: string, tld: string)
  {
    && |local| >= 1 && (forall i :: 0 <= i < |local| ==> LocalCharI(local[i]))
    && |domain| >= 1 && (forall i :: 0 <= i < |domain| ==> DomainCharI(domain[i]))
    && |tld| >= 2 && (forall i :: 0 <= i < |tld| ==> LetterI(tld[i]))
  }

  /** The registration form's email check, split as the admin form splits it. */
  predicate EmailValid(s: string)
  {
    var at := IndexOf(s, '@');
    at >= 0 &&
    var rest := s[at + 1..];
    var dot := LastIndexOf(rest, '.');
    dot >= 0 && EmailPartsI(s[..at], rest[..dot], rest[dot + 1..])
  }

  lemma PartsAgree(local: string, domain: string, tld: string)
    ensures EmailPartsI(local, domain, tld) <==> GerenciarUsuarios.EmailParts(local, domain, tld)
  {
    forall c: char ensures LocalCharI(c) <==> GerenciarUsuarios.LocalChar(c) { ClassesAgree(c); }
    forall c: char ensures DomainCharI(c) <==> GerenciarUsuarios.DomainChar(c) { ClassesAgree(c); }
    forall c: char ensures LetterI(c) <==> IsAsciiLetter(c) { ClassesAgree(c); }
  }

  /** Both forms accept exactly the same email addresses. */
  lemma EmailSameAsAdminForm(s: string)
    ensures EmailValid(s) <==> GerenciarUsuarios.EmailValid(s)
  {
    var at := IndexOf(s, '@');
    if at >= 0 {
      var rest := s[at + 1..];
      var dot := LastIndexOf(rest, '.');
      if dot >= 0 {
        PartsAgree(s[..at], rest[..dot], rest[dot + 1..]);
      }
    }
  }

  // ----- CPF: /^\d{3}\.\d{3}\.\d{3}-\d{2}$/ -----

  /** `DDD.DDD.DDD-DD`; only the layout, no check digits. */
  predicate CpfValid(s: string)
  {
    && |s| == 14
    && (forall i :: 0 <= i < 14 && i != 3 && i != 7 && i != 11 ==> IsDigit(s[i]))
    && s[3] == '.' && s[7] == '.' && s[11] == '-'
  }

  /** The CPF written from its four digit groups. */
  function CpfFrom(a: string, b: string, c: string, d: string): (s: string)
    requires |a| == 3 && |b| == 3 && |c| == 3 && |d| == 2
    ensures |s| == 14
  {
    a + "." + b + "." + c + "-" + d
  }

  /** Any four digit groups of lengths 3, 3, 3 and 2 give an accepted CPF. */
  lemma CpfFromValid(a: string, b: string, c: string, d: string)
    requires |a| == 3 && |b| == 3 && |c| == 3 && |d| == 2
    requires AllDigits(a) && AllDigits(b) && AllDigits(c) && AllDigits(d)
    ensures CpfValid(CpfFrom(a, b, c, d))
  {
    var s := CpfFrom(a, b, c, d);
    assert forall i :: 0 <= i < 3 ==> s[i] == a[i] && s[4 + i] == b[i] && s[8 + i] == c[i];
    assert forall i :: 0 <= i < 2 ==> s[12 + i] == d[i];
  }

  /** Every accepted CPF is such a composition, and its groups are digits. */
  lemma CpfValidSplits(s: string)
    requires CpfValid(s)
    ensures AllDigits(s[0..3]) && AllDigits(s[4..7]) && AllDigits(s[8..11]) && AllDigits(s[12..14])
    ensures s == CpfFrom(s[0..3], s[4..7], s[8..11], s[12..14])
  {
    assert forall i :: 0 <= i < 3 ==> s[0..3][i] == s[i] && s[4..7][i] == s[4 + i] && s[8..11][i] == s[8 + i];
    assert forall i :: 0 <= i < 2 ==> s[12..14][i] == s[12 + i];
  }

  // ----- telephone: /^\(\d{2}\)\s\d{4,5}-\d{4}$/ -----

  /** `(DD)`, one whitespace character, four or five digits, `-`, four digits. */
  predicate TelefoneValid(s: string)
  {
    (|s| == 14 || |s| == 15) &&
    var n := |s| - 10;  // digits in the middle group
    && s[0] == '(' && IsDigit(s[1]) && IsDigit(s[2]) && s[3] == ')' && IsJsWhitespace(s[4])
    && (forall i :: 5 <= i < 5 + n ==> IsDigit(s[i]))
    && s[5 + n] == '-'
    && (forall i :: 6 + n <= i < |s| ==> IsDigit(s[i]))
  }

  /** The telephone written from its area code, separator, middle group and last group. */
  function TelFrom(dd: string, w: char, mid: string, end: string): (s: string)
    requires |dd| == 2 && (|mid| == 4 || |mid| == 5) && |end| == 4
    ensures |s| == 10 + |mid|
  {
    "(" + dd + ")" + [w] + mid + "-" + end
  }

  /** Any such parts give an accepted telephone. */
  lemma TelFromValid(dd: string, w: char, mid: string, end: string)
    requires |dd| == 2 && (|mid| == 4 || |mid| == 5) && |end| == 4
    requires AllDigits(dd) && IsJsWhitespace(w) && AllDigits(mid) && AllDigits(end)
    ensures TelefoneValid(TelFrom(dd, w, mid, end))
  {
    var s := TelFrom(dd, w, mid, end);
    var n := |mid|;
    assert s[1] == dd[0] && s[2] == dd[1];
    assert forall i :: 5 <= i < 5 + n ==> s[i] == mid[i - 5];
    assert forall i :: 6 + n <= i < |s| ==> s[i] == end[i - 6 - n];
  }

  /** Every accepted telephone is such a composition, with a middle group of 4 or 5 digits. */
  lemma TelefoneValidSplits(s: string)
    requires TelefoneValid(s)
    ensures var n := |s| - 10;
      && (n == 4 || n == 5)
      && AllDigits(s[1..3]) && IsJsWhitespace(s[4]) && AllDigits(s[5..5 + n]) && AllDigits(s[6 + n..])
      && s == TelFrom(s[1..3], s[4], s[5..5 + n], s[6 + n..])
  {
    var n := |s| - 10;
    var mid, end := s[5..5 + n], s[6 + n..];
    assert forall i :: 0 <= i < n ==> mid[i] == s[5 + i];
    assert forall i :: 0 <= i < 4 ==> end[i] == s[6 + n + i];
    assert s == "(" + s[1..3] + ")" + [s[4]] + mid + "-" + end;
  }

  // ----- the form's rules, with their messages -----

  /** The values of the registration form. */
  datatype RegisterForm = RegisterForm(nome: string, email: string, password: string,
                                       confirmaSenha: string, cpf: string, telefone: string)

  function NomeError(v: string): (e: Option<string>)
    ensures e == None <==> v != ""
    ensures v == "" ==> e == Some("Por favor, digite seu nome")
  {
    Required(v, "Por favor, digite seu nome")
  }

  function EmailError(v: string): (e: Option<string>)
    ensures e == None <==> EmailValid(v)
    ensures v == "" ==> e == Some("Por favor, digite seu email")
    ensures v != "" && !EmailValid(v) ==> e == Some("Email inválido")
  {
    if v == "" then Some("Por favor, digite seu email")
    else if !EmailValid(v) then Some("Email inválido")
    else None
  }

  /** No strength rule: any non-empty password passes. */
  function PasswordError(v: string): (e: Option<string>)
    ensures e == None <==> v != ""
    ensures v == "" ==> e == Some("Por favor, digite sua senha")
  {
    Required(v, "Por favor, digite sua senha")
  }

  function ConfirmaSenhaError(v: string, password: string): (e: Option<string>)
    ensures e == None <==> v != "" && v == password
    ensures v == "" ==> e == Some("Por favor, confirme sua senha")
    ensures v != "" && v != password ==> e == Some("As senhas não coincidem")
  {
    if v == "" then Some("Por favor, confirme sua senha")
    else if v != password then Some("As senhas não coincidem")
    else None
  }

  function CpfError(v: string): (e: Option<string>)
    ensures e == None <==> CpfValid(v)
    ensures v == "" ==> e == Some("Por favor, digite seu CPF")
    ensures v != "" && !CpfValid(v) ==> e == Some("CPF inválido (formato: XXX.XXX.XXX-XX)")
  {
    if v == "" then Some("Por favor, digite seu CPF")
    else if !CpfValid(v) then Some("CPF inválido (formato: XXX.XXX.XXX-XX)")
    else None
  }

  function TelefoneError(v: string): (e: Option<string>)
    ensures e == None <==> TelefoneValid(v)
    ensures v == "" ==> e == Some("Por favor, digite seu telefone")
    ensures v != "" && !TelefoneValid(v) ==> e == Some("Telefone inválido (formato: (XX) XXXXX-XXXX)")
  {
    if v == "" then Some("Por favor, digite seu telefone")
    else if !TelefoneValid(v) then Some("Telefone inválido (formato: (XX) XXXXX-XXXX)")
    else None
  }

  predicate Accepted(f: RegisterForm)
  {
    NomeError(f.nome) == None && EmailError(f.email) == None && PasswordError(f.password) == None
    && ConfirmaSenhaError(f.confirmaSenha, f.password) == None && CpfError(f.cpf) == None
    && TelefoneError(f.telefone) == None
  }

  /** An accepted registration has a name, an address the admin form would accept too, a repeated password and well-formed CPF and telephone. */
  lemma AcceptedMeans(f: RegisterForm)
    ensures Accepted(f) <==>
      f.nome != "" && GerenciarUsuarios.EmailValid(f.email) && f.password != ""
      && f.confirmaSenha == f.password && CpfValid(f.cpf) && TelefoneValid(f.telefone)
  {
    EmailSameAsAdminForm(f.email);
  }

  /** What the page shows after posting, and whether its loading overlay stays up. */
  datatype Outcome = Outcome(message: string, success: bool, loading: bool)

  /** A success keeps the overlay up until the page navigates away; a failure lowers it. */
  function AfterPost(succeeded: bool): (o: Outcome)
    ensures o.success == succeeded && o.loading == succeeded
    ensures o.message == (if succeeded then "Registro efetuado com sucesso!" else "Erro ao registrar usuário!")
  {
    if succeeded then Outcome("Registro efetuado com sucesso!", true, true)
    else Outcome("Erro ao registrar usuário!", false, false)
  }
}
