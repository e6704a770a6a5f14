/**
  The database help text the separated layout's README carries
  (`getDatabaseInstructions` of `CodeGeneratorService.java`).
*/
module DatabaseNotes {
  import opened Text
  import opened ProjectConfigs

  /** The word each database's instructions open with. */
  function Lead(db: DatabaseType): (w: string)
    ensures |w| > 1
  {
    match db
    case H2 => "H2"
    case SQLITE => "SQLite"
    case POSTGRESQL => "PostgreSQL"
    case MYSQL => "MySQL"
    case NONE => "No"
  }

  /** The database help text of the separated layout's README: the opening word, then the rest line by line. */
  function DatabaseInstructions(db: DatabaseType): (t: string)
    ensures StartsWith(t, Lead(db))
  {
    Lead(db) + Concat(DetailLines(db))
  }

  function DetailLines(db: DatabaseType): seq<string> {
    match db
    case H2 =>
      [" is configured for in-memory database.\n",
       "- Access H2 Console: http://localhost:8080/h2-console\n",
       "- JDBC URL: jdbc:h2:mem:testdb\n",
       "- Username: sa\n",
       "- Password: (empty)\n"]
    case SQLITE =>
      [" database file will be created in the `data/` folder.\n",
       "- Database file: `data/[projectname].db`\n",
       "- No additional setup required\n"]
    case POSTGRESQL =>
      [" configuration:\n",
       "- Create database: `createdb [projectname]`\n",
       "- Update username/password in application.properties\n",
       "- Default connection: localhost:5432\n"]
    case MYSQL =>
      [" configuration:\n",
       "- Create database: `CREATE DATABASE [projectname];`\n",
       "- Update username/password in application.properties\n",
       "- Default connection: localhost:3306\n"]
    case NONE => [" database configured - REST API only."]
  }

  /**
    Texts that open with the databases' words tell the databases apart:
    the instructions of two different databases never coincide, and only the
    "no database" sentence opens with "No".
  */
  lemma InstructionsIdentify(a: DatabaseType, b: DatabaseType, ta: string, tb: string)
    requires StartsWith(ta, Lead(a)) && StartsWith(tb, Lead(b))
    ensures ta == tb ==> a == b
    ensures StartsWith(ta, "No") <==> a == NONE
  {
    assert ta[0] == Lead(a)[0] && tb[0] == Lead(b)[0];
    if StartsWith(ta, "No") {
      assert ta[0] == 'N';
    }
  }
}
