/**
  The classifier's verdicts on the file names its own tests use. Each verdict follows
  from `AnalyzeTiers`, given which patterns the name shows and which it cannot show.
 */
module HeuristicsExamples {
  import Options
  import opened Strings
  import opened Paths
  import opened Heuristics

  /** A path that is a single normal name is its own file name. */
  lemma PlainName(name: string)
    requires NormalName(name)
    ensures FileName(name) == Options.Some(name)
  {
    FileNameOfJoin("", name);
    assert Join("", name) == name;
  }

  /** No pattern of the gate occurs in `s`. */
  lemma NoPattern(s: string)
    requires !Contains(s, "password") && !Contains(s, "secret") && !Contains(s, "key")
    requires !Contains(s, "token") && !EndsWith(s, ".pem") && !EndsWith(s, ".kdbx")
    requires !Contains(s, "backup") && !Contains(s, "dump") && !EndsWith(s, ".p12")
    requires !EndsWith(s, ".pfx") && !Contains(s, "credentials") && !EndsWith(s, ".env")
    requires !Contains(s, "config") && !Contains(s, ".ssh") && !Contains(s, "wallet")
    ensures !MatchesLowered(s)
  {
  }

  /** A plain lower-case name showing a Critical sign is Critical. */
  lemma CriticalName(s: string)
    requires NormalName(s) && Lower(s) == s && CriticalSigns(s, s)
    ensures AnalyzeFilenameRisk(s) == Critical
  {
    PlainName(s);
    AnalyzeTiers(s);
  }

  /** A High sign opens the gate, except `credential` without the plural. */
  lemma HighGate(s: string)
    requires Lower(s) == s && HighSigns(s)
    requires !Contains(s, "credential") || Contains(s, "credentials")
    ensures PassesGate(s, s)
  {
    if Contains(s, "credential") {
      PatternAt(10, s);
    } else {
      HighSignsPassGate(s, s);
    }
  }

  /** A plain lower-case name with a High sign and no Critical one is High, unless the gate stops it. */
  lemma HighName(s: string)
    requires NormalName(s) && Lower(s) == s && !CriticalSigns(s, s) && HighSigns(s)
    requires !Contains(s, "credential") || Contains(s, "credentials")
    ensures AnalyzeFilenameRisk(s) == High
  {
    PlainName(s);
    HighGate(s);
    AnalyzeTiers(s);
  }

  lemma MediumName(s: string)
    requires NormalName(s) && Lower(s) == s && !CriticalSigns(s, s) && !HighSigns(s) && MediumSigns(s)
    ensures AnalyzeFilenameRisk(s) == Medium
  {
    PlainName(s);
    AnalyzeTiers(s);
  }

  /** A plain lower-case name that shows none of the gate's patterns is not sensitive. */
  lemma UngatedName(s: string)
    requires NormalName(s) && Lower(s) == s && !MatchesLowered(s)
    ensures AnalyzeFilenameRisk(s) == None
  {
    PlainName(s);
    AnalyzeTiers(s);
  }

  lemma PasswordsTxtText()
    ensures Lower("passwords.txt") == "passwords.txt"
  {
    assert NoUpperBefore("passwords.txt", 6);
    LowerOfNoUpper("passwords.txt", 13);
  }

  lemma PasswordsTxtSigns()
    ensures Contains("passwords.txt", "password")
  {
    ContainsAt("passwords.txt", "password", 0);
  }

  lemma PasswordsTxtName()
    ensures NormalName("passwords.txt")
  {
  }

  lemma PasswordsTxt()
    ensures AnalyzeFilenameRisk("passwords.txt") == Critical
  {
    PasswordsTxtText();
    PasswordsTxtSigns();
    PasswordsTxtName();
    CriticalName("passwords.txt");
  }

  lemma PrivatePemText()
    ensures Lower("private.pem") == "private.pem"
  {
    assert NoUpperBefore("private.pem", 5);
    LowerOfNoUpper("private.pem", 11);
  }

  lemma PrivatePemSigns()
    ensures EndsWith("private.pem", ".pem")
  {
  }

  lemma PrivatePemName()
    ensures NormalName("private.pem")
  {
  }

  lemma PrivatePem()
    ensures AnalyzeFilenameRisk("private.pem") == Critical
  {
    PrivatePemText();
    PrivatePemSigns();
    PrivatePemName();
    CriticalName("private.pem");
  }

  lemma SecretKeyPemText()
    ensures Lower("my_secret_key.pem") == "my_secret_key.pem"
  {
    assert NoUpperBefore("my_secret_key.pem", 8);
    LowerOfNoUpper("my_secret_key.pem", 17);
  }

  lemma SecretKeyPemSigns()
    ensures EndsWith("my_secret_key.pem", ".pem")
  {
  }

  lemma SecretKeyPemName()
    ensures NormalName("my_secret_key.pem")
  {
  }

  lemma SecretKeyPem()
    ensures AnalyzeFilenameRisk("my_secret_key.pem") == Critical
  {
    SecretKeyPemText();
    SecretKeyPemSigns();
    SecretKeyPemName();
    CriticalName("my_secret_key.pem");
  }

  lemma CredentialsJsonText()
    ensures Lower("credentials.json") == "credentials.json"
  {
    assert NoUpperBefore("credentials.json", 8);
    LowerOfNoUpper("credentials.json", 16);
  }

  lemma CredentialsJsonSigns1()
    ensures Contains("credentials.json", "credential")
    ensures Contains("credentials.json", "credentials")
  {
    ContainsAt("credentials.json", "credential", 0);
    ContainsAt("credentials.json", "credentials", 0);
  }

  lemma CredentialsJsonSigns2()
    ensures !EndsWith("credentials.json", ".pem")
    ensures !EndsWith("credentials.json", ".p12")
    ensures !EndsWith("credentials.json", ".pfx")
    ensures !Contains("credentials.json", "password")
  {
    SuffixDiffersAt("credentials.json", ".pem", 3);
    SuffixDiffersAt("credentials.json", ".p12", 3);
    SuffixDiffersAt("credentials.json", ".pfx", 3);
    AbsentChar("credentials.json", "password", 0);
  }

  lemma CredentialsJsonSigns3()
    ensures !Contains("credentials.json", ".ssh")
    ensures !Contains("credentials.json", "wallet")
  {
    AbsentChar("credentials.json", ".ssh", 3);
    AbsentChar("credentials.json", "wallet", 0);
  }

  lemma CredentialsJsonSigns4()
    ensures !Contains("credentials.json", "secret")
  {
    CharOnlyAt("credentials.json", "secret", 2, 0, 0);
  }

  lemma CredentialsJsonName()
    ensures NormalName("credentials.json")
  {
  }

  lemma CredentialsJson()
    ensures AnalyzeFilenameRisk("credentials.json") == High
  {
    CredentialsJsonText();
    CredentialsJsonSigns1();
    CredentialsJsonSigns2();
    CredentialsJsonSigns3();
    CredentialsJsonSigns4();
    CredentialsJsonName();
    HighName("credentials.json");
  }

  lemma DotEnvText()
    ensures Lower(".env") == ".env"
  {
    LowerOfNoUpper(".env", 4);
  }

  lemma DotEnvSigns1()
    ensures !EndsWith(".env", ".pem")
    ensures !EndsWith(".env", ".p12")
    ensures !EndsWith(".env", ".pfx")
    ensures !Contains(".env", "password")
  {
    SuffixDiffersAt(".env", ".pem", 1);
    SuffixDiffersAt(".env", ".p12", 1);
    SuffixDiffersAt(".env", ".pfx", 1);
    AbsentChar(".env", "password", 0);
  }

  lemma DotEnvSigns2()
    ensures !Contains(".env", "secret")
    ensures !Contains(".env", ".ssh")
    ensures !Contains(".env", "wallet")
    ensures !Contains(".env", "credential")
  {
    AbsentChar(".env", "secret", 0);
    AbsentChar(".env", ".ssh", 1);
    AbsentChar(".env", "wallet", 0);
    AbsentChar(".env", "credential", 0);
  }

  lemma DotEnvName()
    ensures NormalName(".env")
  {
  }

  lemma DotEnv()
    ensures AnalyzeFilenameRisk(".env") == High
  {
    DotEnvText();
    DotEnvSigns1();
    DotEnvSigns2();
    DotEnvName();
    HighName(".env");
  }

  lemma DatabaseKdbxText()
    ensures Lower("database.kdbx") == "database.kdbx"
  {
    assert NoUpperBefore("database.kdbx", 6);
    LowerOfNoUpper("database.kdbx", 13);
  }

  lemma DatabaseKdbxSigns1()
    ensures EndsWith("database.kdbx", ".kdbx")
  {
  }

  lemma DatabaseKdbxSigns2()
    ensures !EndsWith("database.kdbx", ".pem")
    ensures !EndsWith("database.kdbx", ".p12")
    ensures !EndsWith("database.kdbx", ".pfx")
    ensures !Contains("database.kdbx", "password")
  {
    SuffixDiffersAt("database.kdbx", ".pem", 0);
    SuffixDiffersAt("database.kdbx", ".p12", 0);
    SuffixDiffersAt("database.kdbx", ".pfx", 0);
    AbsentChar("database.kdbx", "password", 0);
  }

  lemma DatabaseKdbxSigns3()
    ensures !Contains("database.kdbx", "secret")
    ensures !Contains("database.kdbx", ".ssh")
    ensures !Contains("database.kdbx", "wallet")
    ensures !Contains("database.kdbx", "credential")
  {
    AbsentChar("database.kdbx", "secret", 2);
    AbsentChar("database.kdbx", ".ssh", 3);
    AbsentChar("database.kdbx", "wallet", 0);
    AbsentChar("database.kdbx", "credential", 0);
  }

  lemma DatabaseKdbxName()
    ensures NormalName("database.kdbx")
  {
  }

  lemma DatabaseKdbx()
    ensures AnalyzeFilenameRisk("database.kdbx") == High
  {
    DatabaseKdbxText();
    DatabaseKdbxSigns1();
    DatabaseKdbxSigns2();
    DatabaseKdbxSigns3();
    DatabaseKdbxName();
    HighName("database.kdbx");
  }

  lemma BackupZipText()
    ensures Lower("backup.zip") == "backup.zip"
  {
    assert NoUpperBefore("backup.zip", 5);
    LowerOfNoUpper("backup.zip", 10);
  }

  lemma BackupZipSigns1()
    ensures Contains("backup.zip", "backup")
  {
    ContainsAt("backup.zip", "backup", 0);
  }

  lemma BackupZipSigns2()
    ensures !EndsWith("backup.zip", ".pem")
    ensures !EndsWith("backup.zip", ".p12")
    ensures !EndsWith("backup.zip", ".pfx")
    ensures !Contains("backup.zip", "password")
  {
    SuffixDiffersAt("backup.zip", ".pem", 1);
    SuffixDiffersAt("backup.zip", ".p12", 1);
    SuffixDiffersAt("backup.zip", ".pfx", 1);
    AbsentChar("backup.zip", "password", 4);
  }

  lemma BackupZipSigns3()
    ensures !Contains("backup.zip", "secret")
    ensures !Contains("backup.zip", ".ssh")
    ensures !Contains("backup.zip", "wallet")
    ensures !Contains("backup.zip", "credential")
  {
    AbsentChar("backup.zip", "secret", 0);
    AbsentChar("backup.zip", ".ssh", 1);
    AbsentChar("backup.zip", "wallet", 0);
    AbsentChar("backup.zip", "credential", 1);
  }

  lemma BackupZipSigns4()
    ensures !Contains("backup.zip", "token")
    ensures !EndsWith("backup.zip", ".kdbx")
  {
    AbsentChar("backup.zip", "token", 0);
    SuffixDiffersAt("backup.zip", ".kdbx", 0);
  }

  lemma BackupZipName()
    ensures NormalName("backup.zip")
  {
  }

  lemma BackupZip()
    ensures AnalyzeFilenameRisk("backup.zip") == Medium
  {
    BackupZipText();
    BackupZipSigns1();
    BackupZipSigns2();
    BackupZipSigns3();
    BackupZipSigns4();
    BackupZipName();
    MediumName("backup.zip");
  }

  lemma ConfigYamlText()
    ensures Lower("config.yaml") == "config.yaml"
  {
    assert NoUpperBefore("config.yaml", 5);
    LowerOfNoUpper("config.yaml", 11);
  }

  lemma ConfigYamlSigns1()
    ensures Contains("config.yaml", "config")
  {
    ContainsAt("config.yaml", "config", 0);
  }

  lemma ConfigYamlSigns2()
    ensures !EndsWith("config.yaml", ".pem")
    ensures !EndsWith("config.yaml", ".p12")
    ensures !EndsWith("config.yaml", ".pfx")
    ensures !Contains("config.yaml", "password")
  {
    SuffixDiffersAt("config.yaml", ".pem", 3);
    SuffixDiffersAt("config.yaml", ".p12", 3);
    SuffixDiffersAt("config.yaml", ".pfx", 3);
    AbsentChar("config.yaml", "password", 0);
  }

  lemma ConfigYamlSigns3()
    ensures !Contains("config.yaml", "secret")
    ensures !Contains("config.yaml", ".ssh")
    ensures !Contains("config.yaml", "wallet")
    ensures !Contains("config.yaml", "credential")
  {
    AbsentChar("config.yaml", "secret", 0);
    AbsentChar("config.yaml", ".ssh", 1);
    AbsentChar("config.yaml", "wallet", 0);
    AbsentChar("config.yaml", "credential", 1);
  }

  lemma ConfigYamlSigns4()
    ensures !Contains("config.yaml", "token")
    ensures !EndsWith("config.yaml", ".kdbx")
  {
    AbsentChar("config.yaml", "token", 0);
    SuffixDiffersAt("config.yaml", ".kdbx", 4);
  }

  lemma ConfigYamlName()
    ensures NormalName("config.yaml")
  {
  }

  lemma ConfigYaml()
    ensures AnalyzeFilenameRisk("config.yaml") == Medium
  {
    ConfigYamlText();
    ConfigYamlSigns1();
    ConfigYamlSigns2();
    ConfigYamlSigns3();
    ConfigYamlSigns4();
    ConfigYamlName();
    MediumName("config.yaml");
  }

  lemma DocumentPdfText()
    ensures Lower("document.pdf") == "document.pdf"
  {
    assert NoUpperBefore("document.pdf", 6);
    LowerOfNoUpper("document.pdf", 12);
  }

  lemma DocumentPdfSigns1()
    ensures !Contains("document.pdf", "password")
    ensures !Contains("document.pdf", "secret")
    ensures !Contains("document.pdf", "key")
    ensures !Contains("document.pdf", "token")
  {
    AbsentChar("document.pdf", "password", 1);
    AbsentChar("document.pdf", "secret", 0);
    AbsentChar("document.pdf", "key", 0);
    AbsentChar("document.pdf", "token", 2);
  }

  lemma DocumentPdfSigns2()
    ensures !EndsWith("document.pdf", ".pem")
    ensures !EndsWith("document.pdf", ".kdbx")
    ensures !Contains("document.pdf", "backup")
    ensures !EndsWith("document.pdf", ".p12")
  {
    SuffixDiffersAt("document.pdf", ".pem", 3);
    SuffixDiffersAt("document.pdf", ".kdbx", 4);
    AbsentChar("document.pdf", "backup", 0);
    SuffixDiffersAt("document.pdf", ".p12", 3);
  }

  lemma DocumentPdfSigns3()
    ensures !EndsWith("document.pdf", ".pfx")
    ensures !Contains("document.pdf", "credentials")
    ensures !EndsWith("document.pdf", ".env")
    ensures !Contains("document.pdf", "config")
  {
    SuffixDiffersAt("document.pdf", ".pfx", 3);
    AbsentChar("document.pdf", "credentials", 1);
    SuffixDiffersAt("document.pdf", ".env", 3);
    AbsentChar("document.pdf", "config", 4);
  }

  lemma DocumentPdfSigns4()
    ensures !Contains("document.pdf", ".ssh")
    ensures !Contains("document.pdf", "wallet")
  {
    AbsentChar("document.pdf", ".ssh", 1);
    AbsentChar("document.pdf", "wallet", 0);
  }

  lemma DocumentPdfSigns5()
    ensures !Contains("document.pdf", "dump")
  {
    CharOnlyAt("document.pdf", "dump", 1, 3, 0);
  }

  lemma DocumentPdfName()
    ensures NormalName("document.pdf")
  {
  }

  lemma DocumentPdf()
    ensures AnalyzeFilenameRisk("document.pdf") == None
  {
    DocumentPdfText();
    DocumentPdfSigns1();
    DocumentPdfSigns2();
    DocumentPdfSigns3();
    DocumentPdfSigns4();
    DocumentPdfSigns5();
    DocumentPdfName();
    NoPattern("document.pdf");
    UngatedName("document.pdf");
  }

  lemma MainRsText()
    ensures Lower("main.rs") == "main.rs"
  {
    LowerOfNoUpper("main.rs", 7);
  }

  lemma MainRsSigns1()
    ensures !Contains("main.rs", "password")
    ensures !Contains("main.rs", "secret")
    ensures !Contains("main.rs", "key")
    ensures !Contains("main.rs", "token")
  {
    AbsentChar("main.rs", "password", 0);
    AbsentChar("main.rs", "secret", 1);
    AbsentChar("main.rs", "key", 0);
    AbsentChar("main.rs", "token", 0);
  }

  lemma MainRsSigns2()
    ensures !EndsWith("main.rs", ".pem")
    ensures !EndsWith("main.rs", ".kdbx")
    ensures !Contains("main.rs", "backup")
    ensures !Contains("main.rs", "dump")
  {
    SuffixDiffersAt("main.rs", ".pem", 3);
    SuffixDiffersAt("main.rs", ".kdbx", 4);
    AbsentChar("main.rs", "backup", 0);
    AbsentChar("main.rs", "dump", 0);
  }

  lemma MainRsSigns3()
    ensures !EndsWith("main.rs", ".p12")
    ensures !EndsWith("main.rs", ".pfx")
    ensures !Contains("main.rs", "credentials")
    ensures !EndsWith("main.rs", ".env")
  {
    SuffixDiffersAt("main.rs", ".p12", 3);
    SuffixDiffersAt("main.rs", ".pfx", 3);
    AbsentChar("main.rs", "credentials", 0);
    SuffixDiffersAt("main.rs", ".env", 3);
  }

  lemma MainRsSigns4()
    ensures !Contains("main.rs", "config")
    ensures !Contains("main.rs", ".ssh")
    ensures !Contains("main.rs", "wallet")
  {
    AbsentChar("main.rs", "config", 0);
    AbsentChar("main.rs", ".ssh", 3);
    AbsentChar("main.rs", "wallet", 0);
  }

  lemma MainRsName()
    ensures NormalName("main.rs")
  {
  }

  lemma MainRs()
    ensures AnalyzeFilenameRisk("main.rs") == None
  {
    MainRsText();
    MainRsSigns1();
    MainRsSigns2();
    MainRsSigns3();
    MainRsSigns4();
    MainRsName();
    NoPattern("main.rs");
    UngatedName("main.rs");
  }

  lemma CredentialTxtText()
    ensures Lower("credential.txt") == "credential.txt"
  {
    assert NoUpperBefore("credential.txt", 7);
    LowerOfNoUpper("credential.txt", 14);
  }

  lemma CredentialTxtSigns1()
    ensures Contains("credential.txt", "credential")
  {
    ContainsAt("credential.txt", "credential", 0);
  }

  lemma CredentialTxtSigns2()
    ensures !Contains("credential.txt", "password")
    ensures !Contains("credential.txt", "secret")
    ensures !Contains("credential.txt", "key")
    ensures !Contains("credential.txt", "token")
  {
    AbsentChar("credential.txt", "password", 0);
    AbsentChar("credential.txt", "secret", 0);
    AbsentChar("credential.txt", "key", 0);
    AbsentChar("credential.txt", "token", 2);
  }

  lemma CredentialTxtSigns3()
    ensures !EndsWith("credential.txt", ".pem")
    ensures !EndsWith("credential.txt", ".kdbx")
    ensures !Contains("credential.txt", "backup")
    ensures !Contains("credential.txt", "dump")
  {
    SuffixDiffersAt("credential.txt", ".pem", 3);
    SuffixDiffersAt("credential.txt", ".kdbx", 4);
    AbsentChar("credential.txt", "backup", 0);
    AbsentChar("credential.txt", "dump", 1);
  }

  lemma CredentialTxtSigns4()
    ensures !EndsWith("credential.txt", ".p12")
    ensures !EndsWith("credential.txt", ".pfx")
    ensures !Contains("credential.txt", "credentials")
    ensures !EndsWith("credential.txt", ".env")
  {
    SuffixDiffersAt("credential.txt", ".p12", 3);
    SuffixDiffersAt("credential.txt", ".pfx", 3);
    AbsentChar("credential.txt", "credentials", 10);
    SuffixDiffersAt("credential.txt", ".env", 3);
  }

  lemma CredentialTxtSigns5()
    ensures !Contains("credential.txt", "config")
    ensures !Contains("credential.txt", ".ssh")
    ensures !Contains("credential.txt", "wallet")
  {
    AbsentChar("credential.txt", "config", 5);
    AbsentChar("credential.txt", ".ssh", 1);
    AbsentChar("credential.txt", "wallet", 0);
  }

  lemma CredentialTxtName()
    ensures NormalName("credential.txt")
  {
  }

  /** `credential` is a High sign, but the gate only knows `credentials`: a name with the singular and no other pattern is not sensitive at all. */
  lemma SingularCredentialIsUngated()
    ensures HighSigns(Lower("credential.txt"))
    ensures AnalyzeFilenameRisk("credential.txt") == None
  {
    CredentialTxtText();
    CredentialTxtSigns1();
    CredentialTxtSigns2();
    CredentialTxtSigns3();
    CredentialTxtSigns4();
    CredentialTxtSigns5();
    CredentialTxtName();
    NoPattern("credential.txt");
    UngatedName("credential.txt");
  }

  lemma SshKeyText()
    ensures FileName(".ssh/id_rsa") == Options.Some("id_rsa")
  {
    FileNameOfJoin(".ssh", "id_rsa");
    assert Join(".ssh", "id_rsa") == ".ssh/id_rsa";
  }

  lemma SshKeyLower()
    ensures Lower(".ssh/id_rsa") == ".ssh/id_rsa" && Lower("id_rsa") == "id_rsa"
  {
    assert NoUpperBefore(".ssh/id_rsa", 5);
    LowerOfNoUpper(".ssh/id_rsa", 11);
    LowerOfNoUpper("id_rsa", 6);
  }

  lemma SshKeySigns()
    ensures Contains(".ssh/id_rsa", ".ssh")
  {
    ContainsAt(".ssh/id_rsa", ".ssh", 0);
  }

  /** A key under `.ssh` is Critical through its path, whatever its own name. */
  lemma SshKey()
    ensures AnalyzeFilenameRisk(".ssh/id_rsa") == Critical
  {
    SshKeyText();
    SshKeyLower();
    SshKeySigns();
    AnalyzeTiers(".ssh/id_rsa");
  }

  lemma NotesInBackupText()
    ensures FileName("backup/notes.txt") == Options.Some("notes.txt")
  {
    FileNameOfJoin("backup", "notes.txt");
    assert Join("backup", "notes.txt") == "backup/notes.txt";
  }

  lemma NotesInBackupLower()
    ensures Lower("backup/notes.txt") == "backup/notes.txt"
  {
    assert NoUpperBefore("backup/notes.txt", 8);
    LowerOfNoUpper("backup/notes.txt", 16);
  }

  lemma NotesLower()
    ensures Lower("notes.txt") == "notes.txt"
  {
    assert NoUpperBefore("notes.txt", 4);
    LowerOfNoUpper("notes.txt", 9);
  }

  lemma NotesInBackupGate()
    ensures MatchesLowered("backup/notes.txt")
  {
    ContainsAt("backup/notes.txt", "backup", 0);
    PatternAt(6, "backup/notes.txt");
  }

  lemma NotesInBackupSigns1()
    ensures !EndsWith("notes.txt", ".pem") && !EndsWith("notes.txt", ".p12") && !EndsWith("notes.txt", ".pfx")
    ensures !EndsWith("notes.txt", ".kdbx")
  {
    SuffixDiffersAt("notes.txt", ".pem", 3);
    SuffixDiffersAt("notes.txt", ".p12", 3);
    SuffixDiffersAt("notes.txt", ".pfx", 3);
    SuffixDiffersAt("notes.txt", ".kdbx", 4);
  }

  lemma NotesInBackupSigns2()
    ensures !Contains("notes.txt", "password") && !Contains("notes.txt", "secret")
    ensures !Contains("backup/notes.txt", ".ssh") && !Contains("notes.txt", "wallet")
  {
    AbsentChar("notes.txt", "password", 0);
    AbsentChar("notes.txt", "secret", 2);
    AbsentChar("backup/notes.txt", ".ssh", 3);
    AbsentChar("notes.txt", "wallet", 0);
  }

  lemma NotesInBackupSigns3()
    ensures !Contains("notes.txt", "credential") && !Contains("notes.txt", "token")
    ensures !Contains("notes.txt", "backup") && !Contains("notes.txt", "dump")
  {
    AbsentChar("notes.txt", "credential", 0);
    AbsentChar("notes.txt", "token", 2);
    AbsentChar("notes.txt", "backup", 0);
    AbsentChar("notes.txt", "dump", 0);
  }

  lemma NotesInBackupSigns4()
    ensures !Contains("notes.txt", "config") && !Contains("notes.txt", "key")
  {
    AbsentChar("notes.txt", "config", 0);
    AbsentChar("notes.txt", "key", 0);
  }

  /** A pattern in a directory name opens the gate; a file name without signs is then Low. */
  lemma NotesInBackup()
    ensures AnalyzeFilenameRisk("backup/notes.txt") == Low
  {
    NotesInBackupText();
    NotesInBackupLower();
    NotesLower();
    NotesInBackupGate();
    NotesInBackupSigns1();
    NotesInBackupSigns2();
    NotesInBackupSigns3();
    NotesInBackupSigns4();
    AnalyzeTiers("backup/notes.txt");
  }
}
