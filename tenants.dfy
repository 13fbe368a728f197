/**
 * The job's inputs: the tenants `with_each_tenant` yields, each with its
 * database path and backup handle, and `perform`'s settings.
 */
module Tenants {
  import opened Timestamps
  import opened Paths
  import opened Copier

  const DefaultNumberOfBackups: int := 5
  const DefaultSweepDir: Path := "/backups"
  /** 30 days, in nanoseconds. */
  const DefaultSweepRetention: int := 30 * SecondsPerDay * NanosPerSecond

  /** A tenant as the job sees it: its name, its database path (`db_path(tenant)`) and its backup handle. */
  datatype Tenant = Tenant(name: string, dbPath: Path, backup: Handle)

  /** `perform`'s keyword arguments other than `step:`, plus `Rails.env`. */
  datatype Settings = Settings(env: string, keep: int, sweepDir: Path, sweepRetention: int)

  function DefaultSettings(env: string): Settings {
    Settings(env, DefaultNumberOfBackups, DefaultSweepDir, DefaultSweepRetention)
  }

  /** `backup_path(tenant, 1)`, the generation the backup writes. */
  function Generation1(dbPath: Path): Path {
    BackupPath(dbPath, 1)
  }

  /** `File.join(sweep_dir, Rails.env, tenant)` */
  function SweepPath(sweepDir: Path, env: string, tenant: string): Path {
    Join(Join(sweepDir, env), tenant)
  }
}
